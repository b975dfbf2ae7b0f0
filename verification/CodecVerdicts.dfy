/** What the two frame codecs accept and why they refuse, by the numbers at their places. */
module DataVerdicts {
  import opened Base
  import opened Wire
  import opened WireLayout
  import opened DataCodecSpec
  import MuxSpec

  /** The first thing wrong with a data frame. */
  ghost function Complaint(compact: bool, w: Bytes, limits: Limits): Option<DataError> {
    if !compact then Some(ModeMismatch)
    else if |w| < 47 then Some(Truncated)
    else if w[..4] != [0x4D, 0x4C, 0x44, 0x54] then Some(InvalidHeader)
    else if NumberIn(w, 4, 2) != 1 then Some(UnsupportedVersion)
    else if w[6] != 1 then Some(UnknownFrameKind)
    else if NumberIn(w, 23, 4) == 0 || NumberIn(w, 27, 4) == 0 then Some(InvalidChannel)
    else if NumberIn(w, 39, 2) > limits.maxNestingDepth then Some(LimitExceeded)
    else if NumberIn(w, 41, 2) > 3 then Some(InvalidFlags)
    else if NumberIn(w, 43, 4) > limits.maxPayloadBytes then Some(LimitExceeded)
    else if |w| - 47 < NumberIn(w, 43, 4) then Some(Truncated)
    else if |w| - 47 > NumberIn(w, 43, 4) then Some(TrailingBytes)
    else None
  }

  lemma Numbers(w: Bytes)
    requires |w| >= 47
    ensures Get16(w[4..6]) == NumberIn(w, 4, 2) && Get32(w[23..27]) == NumberIn(w, 23, 4)
    ensures Get32(w[27..31]) == NumberIn(w, 27, 4) && Get64(w[31..39]) == NumberIn(w, 31, 8)
    ensures Get16(w[39..41]) == NumberIn(w, 39, 2) && Get16(w[41..43]) == NumberIn(w, 41, 2)
    ensures Get32(w[43..47]) == NumberIn(w, 43, 4)
  {
    hide Get16, Get32, Get64, Number;
    BigEndian(0, 0, 0, w[4..6], w[23..27], w[31..39]);
    BigEndian(0, 0, 0, w[39..41], w[27..31], w[31..39]);
    BigEndian(0, 0, 0, w[41..43], w[43..47], w[31..39]);
  }

  /** A data frame decodes to what its places say, unless one of these complaints applies, in this order. */
  lemma DecodeVerdict(compact: bool, w: Bytes, limits: Limits)
    ensures var complaint := Complaint(compact, w, limits);
            if complaint.Some? then Decode(compact, w, limits) == Err(complaint.value)
            else
              && Decode(compact, w, limits).Ok?
              && var e := Decode(compact, w, limits).value;
                 && e.sessionId == w[7..23] && e.channelId == NumberIn(w, 23, 4) && e.generation == NumberIn(w, 27, 4)
                 && e.sequence == NumberIn(w, 31, 8) && e.nestingDepth == NumberIn(w, 39, 2)
                 && e.flags.endOfStream == (NumberIn(w, 41, 2) in {1, 3})
                 && e.flags.cancelled == (NumberIn(w, 41, 2) in {2, 3})
                 && e.payload == w[47..]
  {
    hide Get16, Get32, Get64, NumberIn;
    if |w| >= 47 {
      Numbers(w);
    }
  }

  /** An envelope is refused for the mode, then the channel, then a limit. */
  lemma EncodeVerdict(compact: bool, e: Envelope, limits: Limits)
    ensures var r := Encode(compact, e, limits);
            && (!compact ==> r == Err(ModeMismatch))
            && (compact && (e.channelId == 0 || e.generation == 0) ==> r == Err(InvalidChannel))
            && (compact && e.channelId != 0 && e.generation != 0 ==>
                  (|| |e.payload| > limits.maxPayloadBytes || |e.payload| >= 0x1_0000_0000
                   || e.nestingDepth > limits.maxNestingDepth
                   <==> r == Err(LimitExceeded)))
  {
    hide HeaderBytes;
  }
}

/** Control frames. */
module ControlVerdicts {
  import opened Base
  import opened Wire
  import opened WireLayout
  import opened Identity
  import opened Capabilities
  import opened CodecSpec
  import opened ControlSpec
  import opened ControlCodecSpec
  import opened ControlLayout
  import HandshakeSpec

  /* ------------------------------------ Names ------------------------------------ */

  /** Lower-case letters, digits, `-` and `_`. */
  predicate NameByte(b: byte) {
    'a' as int <= b <= 'z' as int || '0' as int <= b <= '9' as int || b == '-' as int || b == '_' as int
  }

  predicate Word(s: Bytes) {
    0 < |s| && forall k :: 0 <= k < |s| ==> NameByte(s[k])
  }

  /** Words with a dot between each two. */
  function WithDots(words: seq<Bytes>): Bytes
    requires words != []
  {
    if |words| == 1 then words[0] else words[0] + ['.' as int] + WithDots(words[1..])
  }

  ghost predicate DottedWords(s: Bytes) {
    exists words :: words != [] && (forall k :: 0 <= k < |words| ==> Word(words[k])) && s == WithDots(words)
  }

  lemma ComponentIsWord(s: Bytes)
    ensures Component(s) <==> Word(s)
  {
    if Component(s) {
      forall k | 0 <= k < |s|
        ensures NameByte(s[k])
      {
        assert s[k] in s;
      }
    }
  }

  lemma {:induction false} WithDotsIsDotted(words: seq<Bytes>)
    requires words != [] && forall k :: 0 <= k < |words| ==> Word(words[k])
    ensures Dotted(WithDots(words))
  {
    ComponentIsWord(words[0]);
    if |words| > 1 {
      WithDotsIsDotted(words[1..]);
      DotBetween(words[0], WithDots(words[1..]));
    } else {
      NoDotInWord(words[0]);
    }
  }

  lemma NoDotInWord(s: Bytes)
    requires Word(s)
    ensures Dotted(s)
  {
    ComponentIsWord(s);
    assert s[0] in s && s[|s| - 1] in s;
    forall i | 0 < i < |s|
      ensures !(s[i - 1] == 0x2E && s[i] == 0x2E)
    {
      assert s[i] in s;
    }
  }

  lemma DotBetween(word: Bytes, rest: Bytes)
    requires Word(word) && Dotted(rest)
    ensures Dotted(word + [0x2E] + rest)
  {
    ComponentIsWord(word);
    var s, n := word + [0x2E] + rest, |word|;
    assert s[0] == word[0] && word[0] in word && s[|s| - 1] == rest[|rest| - 1];
    forall i | 0 < i < |s|
      ensures !(s[i - 1] == 0x2E && s[i] == 0x2E)
    {
      if i < n {
        assert s[i] == word[i] && word[i] in word;
      } else if i == n {
        assert s[i - 1] == word[n - 1] && word[n - 1] in word;
      } else if i == n + 1 {
        assert s[i] == rest[0];
      } else {
        assert s[i - 1] == rest[i - n - 2] && s[i] == rest[i - n - 1];
      }
    }
  }

  lemma {:induction false} DottedSplits(s: Bytes) returns (words: seq<Bytes>)
    requires Dotted(s)
    ensures words != [] && (forall k :: 0 <= k < |words| ==> Word(words[k])) && s == WithDots(words)
    decreases |s|
  {
    if i :| 0 <= i < |s| && s[i] == 0x2E && 0x2E !in s[..i] {
      var head, rest := s[..i], s[i + 1..];
      PartsOfDotted(s, i);
      var others := DottedSplits(rest);
      words := [head] + others;
      assert words[1..] == others;
      assert s == head + [0x2E] + rest;
    } else {
      FirstDot(s);
      words := [s];
      ComponentIsWord(s);
    }
  }

  lemma PartsOfDotted(s: Bytes, i: nat)
    requires Dotted(s) && i < |s| && s[i] == 0x2E && 0x2E !in s[..i]
    ensures Word(s[..i]) && Dotted(s[i + 1..])
  {
    var head, rest := s[..i], s[i + 1..];
    forall b | b in head
      ensures ComponentByte(b)
    {
      assert b in s;
    }
    ComponentIsWord(head);
    assert i + 1 < |s|;
    assert s[(i + 1) - 1] == 0x2E && rest[0] == s[i + 1];
    forall j | 0 < j < |rest|
      ensures !(rest[j - 1] == 0x2E && rest[j] == 0x2E)
    {
      assert rest[j - 1] == s[i + j] && rest[j] == s[i + 1 + j];
      assert s[(i + 1 + j) - 1] == s[i + j];
    }
  }

  lemma {:induction false} FirstDot(s: Bytes)
    requires forall i :: 0 <= i < |s| && s[i] == 0x2E ==> 0x2E in s[..i]
    ensures 0x2E !in s
  {
    if 0x2E in s {
      var i :| 0 <= i < |s| && s[i] == 0x2E;
      EarlierDot(s, i);
    }
  }

  lemma {:induction false} EarlierDot(s: Bytes, i: nat)
    requires i < |s| && s[i] == 0x2E
    ensures exists j :: 0 <= j < |s| && s[j] == 0x2E && 0x2E !in s[..j]
    decreases i
  {
    if 0x2E in s[..i] {
      var j :| 0 <= j < i && s[j] == 0x2E;
      EarlierDot(s, j);
    }
  }

  /** The byte-wise check of a dotted name accepts exactly words joined by dots. */
  lemma DottedIsWords(s: Bytes)
    ensures Dotted(s) <==> DottedWords(s)
  {
    if Dotted(s) {
      var words := DottedSplits(s);
    } else if DottedWords(s) {
      var words :| words != [] && (forall k :: 0 <= k < |words| ==> Word(words[k])) && s == WithDots(words);
      WithDotsIsDotted(words);
    }
  }

  /* ----------------------------------- Payloads ---------------------------------- */

  ghost predicate Named(i: ProtocolDebugIdentity) {
    && DottedWords(i.authority) && Word(i.name) && |i.authority| <= 128 && |i.name| <= 128
  }

  /** One major version, and minor versions in order. */
  predicate Ordered(v: VersionRange) {
    v.minimum.major == v.maximum.major && v.minimum.minor <= v.maximum.minor
  }

  ghost predicate OfferWellMade(o: ProtocolOffer, derive: Derive) {
    && Ordered(o.versions) && o.schema.revision > 0
    && o.capabilities.protocolId == o.stableId && |o.capabilities.words| <= 8
    && match o.debugIdentity
       case None => true
       case Some(i) => Named(i) && derive(i.authority, i.name) == o.stableId
  }

  predicate SelectionWellMade(s: ProtocolSelection) {
    s.schema.revision > 0 && s.capabilities.protocolId == s.stableId && |s.capabilities.words| <= 8
  }

  /** What each kind of message must satisfy to be written, and satisfies when it was read. */
  ghost predicate WellMade(p: Payload, derive: Derive) {
    match p
    case Hello(_, versions, _, _) => Ordered(versions)
    case OfferProtocols(offers) =>
      && |offers| <= 32 && (forall k :: 0 <= k < |offers| ==> OfferWellMade(offers[k], derive))
      && forall j, k :: 0 <= j < k < |offers| ==> offers[j].stableId != offers[k].stableId
    case SelectProtocols(selections) =>
      && |selections| <= 32 && (forall k :: 0 <= k < |selections| ==> SelectionWellMade(selections[k]))
      && forall j, k :: 0 <= j < k < |selections| ==> selections[j].stableId != selections[k].stableId
    case OpenChannel(_, channel, session, capacity) => channel > 0 && session > 0 && capacity > 0
    case AcceptChannel(_, channel, session) => channel > 0 && session > 0
    case CloseChannel(session) => session > 0
    case _ => true
  }

  lemma NamedFits(i: ProtocolDebugIdentity)
    ensures Canonical(i) && IdentityFits(i) <==> Named(i)
  {
    hide Dotted, Component, DottedWords, Word;
    DottedIsWords(i.authority);
    ComponentIsWord(i.name);
    if Canonical(i) || Named(i) {
      NotEmpty(i);
    }
  }

  lemma NotEmpty(i: ProtocolDebugIdentity)
    requires Dotted(i.authority) && Component(i.name)
    ensures |i.authority| > 0 && |i.name| > 0
  {
  }

  lemma OfferVerdict(earlier: seq<ProtocolOffer>, o: ProtocolOffer, derive: Derive)
    ensures OfferError(earlier, o, derive).None? <==>
              OfferWellMade(o, derive) && forall j :: 0 <= j < |earlier| ==> earlier[j].stableId != o.stableId
  {
    hide Canonical, IdentityFits, Named;
    if o.debugIdentity.Some? {
      NamedFits(o.debugIdentity.value);
    }
  }

  lemma {:induction false} OffersVerdict(offers: seq<ProtocolOffer>, n: nat, derive: Derive)
    requires n <= |offers|
    ensures OffersError(offers, n, derive).None? <==>
              && (forall k :: 0 <= k < n ==> OfferWellMade(offers[k], derive))
              && (forall j, k :: 0 <= j < k < n ==> offers[j].stableId != offers[k].stableId)
  {
    hide OfferError, OfferWellMade;
    if n > 0 {
      OffersVerdict(offers, n - 1, derive);
      OfferVerdict(offers[..n - 1], offers[n - 1], derive);
      assert forall j :: 0 <= j < n - 1 ==> offers[..n - 1][j] == offers[j];
    }
  }

  lemma {:induction false} SelectionsVerdict(selections: seq<ProtocolSelection>, n: nat)
    requires n <= |selections|
    ensures SelectionsError(selections, n).None? <==>
              && (forall k :: 0 <= k < n ==> SelectionWellMade(selections[k]))
              && (forall j, k :: 0 <= j < k < n ==> selections[j].stableId != selections[k].stableId)
  {
    if n > 0 {
      SelectionsVerdict(selections, n - 1);
      assert forall j :: 0 <= j < n - 1 ==> selections[..n - 1][j] == selections[j];
    }
  }

  lemma WellMadeIsAccepted(p: Payload, derive: Derive)
    ensures PayloadError(p, derive).None? <==> WellMade(p, derive)
  {
    hide OffersError, SelectionsError, OfferWellMade, SelectionWellMade;
    match p
    case OfferProtocols(offers) => OffersVerdict(offers, |offers|, derive);
    case SelectProtocols(selections) => SelectionsVerdict(selections, |selections|);
    case _ =>
  }

  /** An envelope is encoded exactly in typed mode, in version 1, under its own number, with a well-made payload. */
  lemma EncodeVerdict(typed: bool, e: ControlEnvelope, derive: Derive)
    ensures Encode(typed, e, derive).Ok? <==>
              typed && e.wireVersion == 1 && OperationCode(e.opcode) == CodeOf(e.payload) && WellMade(e.payload, derive)
    ensures !typed ==> Encode(typed, e, derive) == Err(ModeMismatch)
    ensures typed && e.wireVersion != 1 ==> Encode(typed, e, derive) == Err(UnsupportedVersion)
    ensures typed && e.wireVersion == 1 && OperationCode(e.opcode) != CodeOf(e.payload) ==>
              Encode(typed, e, derive) == Err(OpcodeMismatch)
  {
    hide WellMade, PayloadError, WriteHeader, WritePayload, OperationCode, CodeOf, OpcodeOf, OpcodeToWire;
    EncodeSucceeds(typed, e, derive);
    WellMadeIsAccepted(e.payload, derive);
    CodesAgree(e.opcode, e.payload);
    CodesAgree(OpcodeOf(e.payload), e.payload);
    SameCode(e.opcode, OpcodeOf(e.payload));
  }

  lemma SameCode(a: Opcode, b: Opcode)
    ensures OperationCode(a) == OperationCode(b) <==> a == b
  {
  }

  /**
    How reading inside a payload fails: a count or a length beyond its limit is a limit error, a tag
    or text that is not what it should be is an invalid payload, anything missing is a truncation.
   */
  lemma ReadingVerdict(b: Bytes, n: nat, derive: Derive)
    ensures ReadCount(b, n)
         == if b == [] then Bad(Truncated) else if b[0] > n then Bad(LimitExceeded) else Got(b[0], b[1..])
    ensures b != [] && b[0] > 32 ==>
              ReadOfferList(b, derive) == Bad(LimitExceeded) && ReadSelectionList(b) == Bad(LimitExceeded)
    ensures |b| >= 17 && b[16] > 8 ==> ReadCapabilities(b) == Bad(LimitExceeded)
    ensures b != [] && b[0] > 1 ==> ReadIdentity(b) == Bad(InvalidPayload)
    ensures ReadString(b)
         == if |b| < 2 then Bad(Truncated)
            else if !(1 <= NumberIn(b, 0, 2) <= 128) then Bad(LimitExceeded)
            else if |b| - 2 < NumberIn(b, 0, 2) then Bad(Truncated)
            else if !Utf8(b[2..2 + NumberIn(b, 0, 2)]) then Bad(InvalidPayload)
            else Got(b[2..2 + NumberIn(b, 0, 2)], b[2 + NumberIn(b, 0, 2)..])
  {
    hide Number, Utf8, ReadOffers, ReadSelections, ReadWords, ReadString;
    StringVerdict(b);
  }

  lemma StringVerdict(b: Bytes)
    ensures ReadString(b)
         == if |b| < 2 then Bad(Truncated)
            else if !(1 <= NumberIn(b, 0, 2) <= 128) then Bad(LimitExceeded)
            else if |b| - 2 < NumberIn(b, 0, 2) then Bad(Truncated)
            else if !Utf8(b[2..2 + NumberIn(b, 0, 2)]) then Bad(InvalidPayload)
            else Got(b[2..2 + NumberIn(b, 0, 2)], b[2 + NumberIn(b, 0, 2)..])
  {
    hide Number, Utf8, Get16;
    if |b| >= 2 {
      var n := NumberIn(b, 0, 2);
      assert b[..2] == b[0..2];
      BigEndian(0, 0, 0, b[..2], seq(4, _ => 0), seq(8, _ => 0));
      assert ReadU16(b) == Got(n, b[2..]);
      if n <= |b| - 2 {
        assert b[2..][..n] == b[2..2 + n] && b[2..][n..] == b[2 + n..];
      }
    }
  }

  /* ------------------------------------ Frames ----------------------------------- */

  /** The first thing wrong with a control frame, up to its payload. */
  ghost function Complaint(typed: bool, w: Bytes): Option<CodecError> {
    if !typed then Some(ModeMismatch)
    else if |w| < 39 then Some(Truncated)
    else if w[..4] != [0x4D, 0x4C, 0x43, 0x54] then Some(InvalidPayload)
    else if NumberIn(w, 4, 2) != 1 then Some(UnsupportedVersion)
    else if NumberIn(w, 6, 2) !in {0x01, 0x02, 0x03, 0x10, 0x11, 0x12, 0x20, 0x21, 0x22, 0x23, 0xFF} then
      Some(UnknownOpcode)
    else if NumberIn(w, 8, 2) > 1 then Some(InvalidPayload)
    else if w[18] > 1 || (w[18] == 0 && w[19..35] != seq(16, _ => 0)) then Some(InvalidPayload)
    else if NumberIn(w, 35, 4) > 0x1_0000 then Some(LimitExceeded)
    else if |w| - 39 < NumberIn(w, 35, 4) then Some(Truncated)
    else if |w| - 39 > NumberIn(w, 35, 4) then Some(TrailingBytes)
    else None
  }

  lemma Numbers(w: Bytes)
    requires |w| >= 39
    ensures Get16(w[4..6]) == NumberIn(w, 4, 2) && Get16(w[6..8]) == NumberIn(w, 6, 2)
    ensures Get16(w[8..10]) == NumberIn(w, 8, 2) && Get64(w[10..18]) == NumberIn(w, 10, 8)
    ensures Get32(w[35..39]) == NumberIn(w, 35, 4)
  {
    hide Get16, Get32, Get64, Number;
    BigEndian(0, 0, 0, w[4..6], w[35..39], w[10..18]);
    BigEndian(0, 0, 0, w[6..8], w[35..39], w[10..18]);
    BigEndian(0, 0, 0, w[8..10], w[35..39], w[10..18]);
  }

  /** Reading at the front of what is left is reading at a place of the whole. */
  lemma Places(w: Bytes)
    requires |w| >= 39
    ensures w[4..][..2] == w[4..6] && w[4..][2..] == w[6..]
    ensures w[6..][..2] == w[6..8] && w[6..][2..] == w[8..]
    ensures w[8..][..2] == w[8..10] && w[8..][2..] == w[10..]
    ensures w[10..][..8] == w[10..18] && w[10..][8..] == w[18..]
    ensures w[18..][0] == w[18] && w[18..][1..] == w[19..]
    ensures w[19..][..16] == w[19..35] && w[19..][16..] == w[35..]
    ensures w[35..][..4] == w[35..39] && w[35..][4..] == w[39..]
  {
  }

  /** The header reader, place by place. */
  lemma HeaderVerdict(w: Bytes)
    ensures var r := ReadHeader(w);
            if Complaint(true, w) in {None, Some(Truncated), Some(TrailingBytes)} && |w| >= 39
            then
              && r.Got? && r.rest == w[39..] && r.value.payloadLen == NumberIn(w, 35, 4)
              && OperationCode(r.value.opcode) == NumberIn(w, 6, 2)
              && r.value.response == (NumberIn(w, 8, 2) == 1) && r.value.requestId == NumberIn(w, 10, 8)
              && r.value.sessionId == if w[18] == 1 then Some(w[19..35]) else None
            else r == Bad(Complaint(true, w).value)
  {
    hide Get16, Get32, Get64, NumberIn, OpcodeFromWire, OperationCode, ReadSession, ReadU16, ReadU32, ReadU64;
    if |w| >= 39 {
      Numbers(w);
      FixedFields(w);
      SessionField(w);
      OpcodeVerdict(Get16(w[6..8]));
    }
  }

  lemma FixedFields(w: Bytes)
    requires |w| >= 39
    ensures ReadU16(w[4..]) == Got(Get16(w[4..6]), w[6..]) && ReadU16(w[6..]) == Got(Get16(w[6..8]), w[8..])
    ensures ReadU16(w[8..]) == Got(Get16(w[8..10]), w[10..]) && ReadU64(w[10..]) == Got(Get64(w[10..18]), w[18..])
    ensures ReadU32(w[35..]) == Got(Get32(w[35..39]), w[39..])
  {
    hide Get16, Get32, Get64;
    Places(w);
  }

  lemma SessionField(w: Bytes)
    requires |w| >= 39
    ensures ReadSession(w[18..])
         == if w[18] > 1 || (w[18] == 0 && w[19..35] != seq(16, _ => 0)) then Bad(InvalidPayload)
            else Got(if w[18] == 1 then Some(w[19..35]) else None, w[35..])
  {
    Places(w);
    assert ZERO_ID == seq(16, _ => 0);
  }

  lemma OpcodeVerdict(n: u16)
    ensures OpcodeFromWire(n).Some? <==> n in {0x01, 0x02, 0x03, 0x10, 0x11, 0x12, 0x20, 0x21, 0x22, 0x23, 0xFF}
    ensures OpcodeFromWire(n).Some? ==> OperationCode(OpcodeFromWire(n).value) == n
  {
  }

  /** The bytes after the header are exactly those of a well-made payload of the announced kind. */
  ghost predicate Carries(w: Bytes, p: Payload, derive: Derive)
    requires |w| >= 39
  {
    && WellMade(p, derive) && CodeOf(p) == NumberIn(w, 6, 2)
    && PayloadError(p, derive).None? && w[39..] == WritePayload(p, derive)
  }

  /**
    A control frame with a complaint against its header is refused for the first such complaint;
    any other decodes exactly when the rest is a well-made payload of its kind.
   */
  lemma DecodeVerdict(typed: bool, w: Bytes, derive: Derive)
    ensures Complaint(typed, w).Some? ==> Decode(typed, w, derive) == Err(Complaint(typed, w).value)
    ensures Complaint(typed, w).None? ==>
              && (Decode(typed, w, derive).Ok? <==> exists p :: Carries(w, p, derive))
              && (Decode(typed, w, derive).Ok? ==>
                    var e := Decode(typed, w, derive).value;
                    && e.wireVersion == 1 && OperationCode(e.opcode) == NumberIn(w, 6, 2)
                    && e.response == (NumberIn(w, 8, 2) == 1) && e.requestId == NumberIn(w, 10, 8)
                    && e.sessionId == (if w[18] == 1 then Some(w[19..35]) else None)
                    && Carries(w, e.payload, derive))
  {
    hide ReadHeader, ReadPayload, WritePayload, NumberIn, OperationCode, CodeOf, OpcodeOf, WellMade, PayloadError,
      OpcodeToWire;
    HeaderVerdict(w);
    if Complaint(typed, w).None? {
      var opcode := ReadHeader(w).value.opcode;
      PayloadCame(opcode, w[39..], derive);
      var read := ReadPayload(opcode, w[39..], derive);
      if read.Got? && read.rest == [] {
        WellMadeIsAccepted(read.value, derive);
        CodesAgree(opcode, read.value);
        assert w[39..] == WritePayload(read.value, derive);
        assert Carries(w, read.value, derive);
      }
      forall p | Carries(w, p, derive)
        ensures read == Got(p, [])
      {
        PayloadGives(p, derive);
        CodesAgree(opcode, p);
        CodesAgree(OpcodeOf(p), p);
        SameCode(opcode, OpcodeOf(p));
      }
    }
  }
}
