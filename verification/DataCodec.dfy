/** The compact data frame (`data.rs`): one fixed header and an opaque payload. */
module DataCodecSpec {
  import opened Base
  import opened Wire
  import MuxSpec

  type Envelope = MuxSpec.Envelope

  /** `MLDT`, wire version 1, frame kind 1. */
  const DATA_HEADER: Bytes := [0x4D, 0x4C, 0x44, 0x54, 0, 1, 1]
  const COMPACT_DATA_HEADER_BYTES: nat := 47

  datatype Limits = Limits(maxPayloadBytes: nat, maxNestingDepth: u16)

  datatype DataError =
    | ModeMismatch | UnsupportedVersion | UnknownFrameKind | InvalidHeader | InvalidFlags | InvalidChannel
    | LimitExceeded | Truncated | TrailingBytes

  function FlagsToBits(f: MuxSpec.EnvelopeFlags): u16 {
    (if f.endOfStream then 1 else 0) + (if f.cancelled then 2 else 0)
  }

  function FlagsFromBits(bits: u16): Option<MuxSpec.EnvelopeFlags> {
    if bits > 3 then None else Some(MuxSpec.EnvelopeFlags(bits % 2 == 1, bits / 2 == 1))
  }

  lemma FlagsRoundTrip(f: MuxSpec.EnvelopeFlags, bits: u16)
    ensures FlagsFromBits(bits) == Some(f) <==> bits == FlagsToBits(f)
  {
  }

  /** Why the encoder refuses an envelope. */
  function EncodeError(compact: bool, e: Envelope, limits: Limits): Option<DataError> {
    if !compact then Some(ModeMismatch)
    else if e.channelId == MuxSpec.CONTROL_CHANNEL_ID || e.generation == 0 then Some(InvalidChannel)
    else if |e.payload| > limits.maxPayloadBytes || e.nestingDepth > limits.maxNestingDepth then Some(LimitExceeded)
    else if |e.payload| > U32_MAX then Some(LimitExceeded)
    else None
  }

  function HeaderBytes(e: Envelope): (b: Bytes)
    requires |e.payload| <= U32_MAX
    ensures |b| == COMPACT_DATA_HEADER_BYTES
  {
    DATA_HEADER + e.sessionId + Put32(e.channelId) + Put32(e.generation) + Put64(e.sequence)
      + Put16(e.nestingDepth) + Put16(FlagsToBits(e.flags)) + Put32(|e.payload|)
  }

  function Encode(compact: bool, e: Envelope, limits: Limits): Result<Bytes, DataError> {
    if EncodeError(compact, e, limits).Some? then Err(EncodeError(compact, e, limits).value)
    else Ok(HeaderBytes(e) + e.payload)
  }

  /** The decoder's checks, in its order. */
  function Decode(compact: bool, w: Bytes, limits: Limits): Result<Envelope, DataError> {
    if !compact then Err(ModeMismatch)
    else if |w| < COMPACT_DATA_HEADER_BYTES then Err(Truncated)
    else if w[..4] != DATA_HEADER[..4] then Err(InvalidHeader)
    else if Get16(w[4..6]) != 1 then Err(UnsupportedVersion)
    else if w[6] != 1 then Err(UnknownFrameKind)
    else
      var channelId, generation := Get32(w[23..27]), Get32(w[27..31]);
      if channelId == MuxSpec.CONTROL_CHANNEL_ID || generation == 0 then Err(InvalidChannel)
      else
        var nestingDepth := Get16(w[39..41]);
        var flags := FlagsFromBits(Get16(w[41..43]));
        var payloadLen := Get32(w[43..47]);
        if nestingDepth > limits.maxNestingDepth then Err(LimitExceeded)
        else if flags.None? then Err(InvalidFlags)
        else if payloadLen > limits.maxPayloadBytes then Err(LimitExceeded)
        else if |w| < COMPACT_DATA_HEADER_BYTES + payloadLen then Err(Truncated)
        else if |w| != COMPACT_DATA_HEADER_BYTES + payloadLen then Err(TrailingBytes)
        else
          Ok(MuxSpec.Envelope(w[7..23], channelId, generation, Get64(w[31..39]), nestingDepth, flags.value, w[47..]))
  }

  lemma HeaderParts(e: Envelope, rest: Bytes)
    requires |e.payload| <= U32_MAX
    ensures var w := HeaderBytes(e) + rest;
            && w[..4] == DATA_HEADER[..4] && w[4..6] == [0, 1] && w[6] == 1 && w[7..23] == e.sessionId
            && w[23..27] == Put32(e.channelId) && w[27..31] == Put32(e.generation)
            && w[31..39] == Put64(e.sequence) && w[39..41] == Put16(e.nestingDepth)
            && w[41..43] == Put16(FlagsToBits(e.flags)) && w[43..47] == Put32(|e.payload|) && w[47..] == rest
  {
    hide Put16, Put32, Put64, FlagsToBits;
  }

  lemma HeaderReads(e: Envelope, rest: Bytes)
    requires |e.payload| <= U32_MAX
    ensures var w := HeaderBytes(e) + rest;
            && |w| == COMPACT_DATA_HEADER_BYTES + |rest|
            && w[..4] == DATA_HEADER[..4] && Get16(w[4..6]) == 1 && w[6] == 1 && w[7..23] == e.sessionId
            && Get32(w[23..27]) == e.channelId && Get32(w[27..31]) == e.generation
            && Get64(w[31..39]) == e.sequence && Get16(w[39..41]) == e.nestingDepth
            && FlagsFromBits(Get16(w[41..43])) == Some(e.flags) && Get32(w[43..47]) == |e.payload| && w[47..] == rest
  {
    hide Put16, Put32, Put64, Get32, Get64, FlagsToBits, FlagsFromBits, HeaderBytes;
    HeaderParts(e, rest);
    GetPut32(e.channelId);
    GetPut32(e.generation);
    GetPut64(e.sequence);
    GetPut16(e.nestingDepth);
    GetPut16(FlagsToBits(e.flags));
    FlagsRoundTrip(e.flags, FlagsToBits(e.flags));
    GetPut32(|e.payload|);
  }

  /** Decoding under the same limits gives every encoded envelope back. */
  lemma DecodeInvertsEncode(compact: bool, e: Envelope, limits: Limits)
    requires Encode(compact, e, limits).Ok?
    ensures Decode(compact, Encode(compact, e, limits).value, limits) == Ok(e)
  {
    hide HeaderBytes, Get16, Get32, Get64, FlagsFromBits;
    HeaderReads(e, e.payload);
  }

  lemma DecodedHeader(compact: bool, w: Bytes, limits: Limits)
    requires Decode(compact, w, limits).Ok?
    ensures var e := Decode(compact, w, limits).value;
            |e.payload| <= U32_MAX && w == HeaderBytes(e) + e.payload
  {
    hide Put16, Put32, Put64, Get32, Get64, FlagsToBits, FlagsFromBits;
    var e := Decode(compact, w, limits).value;
    PutGet16(w[4..6]);
    assert Put16(1) == [0, 1] by {
      FrameVersion();
    }
    PutGet32(w[23..27]);
    PutGet32(w[27..31]);
    PutGet64(w[31..39]);
    PutGet16(w[39..41]);
    PutGet16(w[41..43]);
    FlagsRoundTrip(e.flags, Get16(w[41..43]));
    PutGet32(w[43..47]);
    Joined(w);
  }

  lemma FrameVersion()
    ensures Put16(1) == [0, 1]
  {
  }

  lemma Joined(w: Bytes)
    requires |w| >= COMPACT_DATA_HEADER_BYTES && w[..4] == DATA_HEADER[..4] && w[4..6] == [0, 1] && w[6] == 1
    ensures w == DATA_HEADER + w[7..23] + w[23..27] + w[27..31] + w[31..39] + w[39..41] + w[41..43] + w[43..47] + w[47..]
  {
    assert w[0] == w[..4][0] && w[1] == w[..4][1] && w[2] == w[..4][2] && w[3] == w[..4][3];
    assert w[4] == w[4..6][0] && w[5] == w[4..6][1];
    assert w[..7] == DATA_HEADER;
    assert w == w[..7] + w[7..23] + w[23..27] + w[27..31] + w[31..39] + w[39..41] + w[41..43] + w[43..47] + w[47..];
  }

  /** Encoding a decoded frame under the same limits gives the bytes back. */
  lemma EncodeInvertsDecode(compact: bool, w: Bytes, limits: Limits)
    requires Decode(compact, w, limits).Ok?
    ensures Encode(compact, Decode(compact, w, limits).value, limits) == Ok(w)
  {
    DecodedHeader(compact, w, limits);
    hide HeaderBytes, Get16, Get32, Get64, FlagsFromBits;
  }

  lemma ExtensionRefused(compact: bool, w: Bytes, more: Bytes, limits: Limits)
    requires Decode(compact, w, limits).Ok? && more != []
    ensures Decode(compact, w + more, limits) == Err(TrailingBytes)
  {
    DecodedHeader(compact, w, limits);
    var e := Decode(compact, w, limits).value;
    hide HeaderBytes, Get16, Get32, Get64, FlagsFromBits;
    assert w + more == HeaderBytes(e) + (e.payload + more);
    HeaderReads(e, e.payload + more);
    HeaderReads(e, e.payload);
  }

  lemma PrefixRefused(compact: bool, w: Bytes, n: nat, limits: Limits)
    requires Decode(compact, w, limits).Ok? && n < |w|
    ensures Decode(compact, w[..n], limits) == Err(Truncated)
  {
    DecodedHeader(compact, w, limits);
    var e := Decode(compact, w, limits).value;
    hide HeaderBytes, Get16, Get32, Get64, FlagsFromBits;
    if n >= COMPACT_DATA_HEADER_BYTES {
      var kept := e.payload[..n - COMPACT_DATA_HEADER_BYTES];
      assert w[..n] == HeaderBytes(e) + kept;
      HeaderReads(e, kept);
      HeaderReads(e, e.payload);
    }
  }
}

/** Encoding into caller-owned storage. */
module DataCodec {
  import opened Base
  import opened Wire
  import opened DataCodecSpec
  import MuxSpec

  class Storage {
    var bytes: Bytes

    constructor ()
      ensures bytes == []
    {
      bytes := [];
    }

    method Clear()
      modifies this
      ensures bytes == []
    {
      bytes := [];
    }

    method Extend(more: Bytes)
      modifies this
      ensures bytes == old(bytes) + more
    {
      bytes := bytes + more;
    }
  }

  /** The storage is replaced by the frame, or left alone when the envelope is refused. */
  method EncodeInto(compact: bool, e: Envelope, limits: Limits, output: Storage) returns (error: Option<DataError>)
    modifies output
    ensures error == EncodeError(compact, e, limits)
    ensures match Encode(compact, e, limits)
            case Ok(frame) => output.bytes == frame
            case Err(_) => output.bytes == old(output.bytes)
  {
    hide Put16, Put32, Put64, FlagsToBits;
    if !compact {
      return Some(ModeMismatch);
    }
    if e.channelId == MuxSpec.CONTROL_CHANNEL_ID || e.generation == 0 {
      return Some(InvalidChannel);
    }
    if |e.payload| > limits.maxPayloadBytes || e.nestingDepth > limits.maxNestingDepth {
      return Some(LimitExceeded);
    }
    if |e.payload| > U32_MAX {
      return Some(LimitExceeded);
    }
    output.Clear();
    output.Extend(DATA_HEADER);
    output.Extend(e.sessionId);
    output.Extend(Put32(e.channelId));
    output.Extend(Put32(e.generation));
    output.Extend(Put64(e.sequence));
    output.Extend(Put16(e.nestingDepth));
    output.Extend(Put16(FlagsToBits(e.flags)));
    output.Extend(Put32(|e.payload|));
    output.Extend(e.payload);
    return None;
  }
}
