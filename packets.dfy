/**
 * The two 44-byte STAMP packets of the unauthenticated mode (section 4.2.1
 * of RFC 8762 for the Session-Sender packet, section 4.3.1 for the
 * stateless Session-Reflector packet), their packed byte layout, the size
 * check `validate_stamp_packet`, and the Error Estimate field of section
 * 4.1.2 of RFC 4656.
 *
 * A packet on the wire is a byte sequence; `EncodeSender`/`EncodeReflector`
 * lay the fields out field after field as the packed C structs do, and
 * `DecodeSender`/`DecodeReflector` read them back from fixed offsets.
 */
module Packets {
  import opened Wire
  import opened NtpTime

  const STAMP_PORT: nat := 862
  const STAMP_BASE_PACKET_SIZE: nat := 44
  const STAMP_MAX_PACKET_SIZE: nat := 65507

  /** S=1, Z=0, Scale=0, Multiplier=1. */
  const ERROR_ESTIMATE_DEFAULT: u16 := 0x8001

  datatype CodecError = TooShort
  datatype Result<+T> = Ok(value: T) | Err(error: CodecError)

  /** struct stamp_sender_packet. */
  datatype SenderPacket = SenderPacket(
    seqNum: u32,
    timestamp: NtpTimestamp,
    errorEstimate: u16,
    mbz: seq<u8>)
  {
    ghost predicate WellFormed() { |mbz| == 30 }
  }

  /** struct stamp_reflector_packet. */
  datatype ReflectorPacket = ReflectorPacket(
    seqNum: u32,
    timestamp: NtpTimestamp,
    errorEstimate: u16,
    mbz1: u16,
    receiveTimestamp: NtpTimestamp,
    senderSeqNum: u32,
    senderTimestamp: NtpTimestamp,
    senderErrorEstimate: u16,
    mbz2: u16,
    senderTtl: u8,
    mbz3: seq<u8>)
  {
    ghost predicate WellFormed() { |mbz3| == 3 }
  }

  /** The wire image of a sender packet: exactly 44 bytes. */
  function EncodeSender(p: SenderPacket): (b: seq<u8>)
    requires p.WellFormed()
    ensures |b| == STAMP_BASE_PACKET_SIZE
  {
    BE32(p.seqNum) + EncodeNtp(p.timestamp) + BE16(p.errorEstimate) + p.mbz
  }

  /** The wire image of a reflector packet: exactly 44 bytes. */
  function EncodeReflector(p: ReflectorPacket): (b: seq<u8>)
    requires p.WellFormed()
    ensures |b| == STAMP_BASE_PACKET_SIZE
  {
    BE32(p.seqNum) + EncodeNtp(p.timestamp) + BE16(p.errorEstimate) + BE16(p.mbz1)
    + EncodeNtp(p.receiveTimestamp) + BE32(p.senderSeqNum) + EncodeNtp(p.senderTimestamp)
    + BE16(p.senderErrorEstimate) + BE16(p.mbz2) + [p.senderTtl] + p.mbz3
  }

  /** Reads a sender packet from the first 44 bytes of a buffer. */
  function DecodeSender(s: seq<u8>): (r: Result<SenderPacket>)
    ensures r.Ok? <==> |s| >= STAMP_BASE_PACKET_SIZE
    ensures r.Ok? ==> r.value.WellFormed()
  {
    if |s| < STAMP_BASE_PACKET_SIZE then Err(TooShort)
    else Ok(SenderPacket(U32At(s, 0), NtpAt(s, 4), U16At(s, 12), s[14..44]))
  }

  /** Reads a reflector packet from the first 44 bytes of a buffer. */
  function DecodeReflector(s: seq<u8>): (r: Result<ReflectorPacket>)
    ensures r.Ok? <==> |s| >= STAMP_BASE_PACKET_SIZE
    ensures r.Ok? ==> r.value.WellFormed()
  {
    if |s| < STAMP_BASE_PACKET_SIZE then Err(TooShort)
    else Ok(ReflectorPacket(
      U32At(s, 0), NtpAt(s, 4), U16At(s, 12), U16At(s, 14), NtpAt(s, 16),
      U32At(s, 24), NtpAt(s, 28), U16At(s, 36), U16At(s, 38), s[40], s[41..44]))
  }

  /**
   * The sender packet's field offsets: seq 0, timestamp 4 and 8, error
   * estimate 12, MBZ 14 to 43.
   */
  lemma {:induction false} SenderLayout(p: SenderPacket)
    requires p.WellFormed()
    ensures var b := EncodeSender(p);
      && b[0..4] == BE32(p.seqNum)
      && b[4..8] == BE32(p.timestamp.seconds) && b[8..12] == BE32(p.timestamp.fraction)
      && b[12..14] == BE16(p.errorEstimate)
      && b[14..44] == p.mbz
  {
  }

  /**
   * The reflector packet's field offsets: seq 0, timestamp 4 and 8, error
   * estimate 12, MBZ 14, receive timestamp 16 and 20, sender seq 24, sender
   * timestamp 28 and 32, sender error estimate 36, MBZ 38, TTL 40, MBZ 41 to 43.
   */
  lemma {:induction false} ReflectorLayout(p: ReflectorPacket)
    requires p.WellFormed()
    ensures var b := EncodeReflector(p);
      && b[0..4] == BE32(p.seqNum)
      && b[4..8] == BE32(p.timestamp.seconds) && b[8..12] == BE32(p.timestamp.fraction)
      && b[12..14] == BE16(p.errorEstimate) && b[14..16] == BE16(p.mbz1)
      && b[16..20] == BE32(p.receiveTimestamp.seconds) && b[20..24] == BE32(p.receiveTimestamp.fraction)
      && b[24..28] == BE32(p.senderSeqNum)
      && b[28..32] == BE32(p.senderTimestamp.seconds) && b[32..36] == BE32(p.senderTimestamp.fraction)
      && b[36..38] == BE16(p.senderErrorEstimate) && b[38..40] == BE16(p.mbz2)
      && b[40] == p.senderTtl && b[41..44] == p.mbz3
  {
  }

  /** Decoding an encoded sender packet gives the packet back. */
  lemma {:induction false} SenderRoundTrip(p: SenderPacket)
    requires p.WellFormed()
    ensures DecodeSender(EncodeSender(p)) == Ok(p)
  {
    var b := EncodeSender(p);
    SenderLayout(p);
    U32AtBE32(p.seqNum, b, 0);
    NtpAtEncodeNtp(p.timestamp, b, 4);
    U16AtBE16(p.errorEstimate, b, 12);
  }

  /** Encoding a decoded sender packet reproduces the first 44 bytes. */
  lemma {:induction false} SenderDecodeEncode(s: seq<u8>)
    requires |s| >= STAMP_BASE_PACKET_SIZE
    ensures EncodeSender(DecodeSender(s).value) == s[..44]
  {
    BE32U32At(s, 0);
    EncodeNtpAt(s, 4);
    BE16U16At(s, 12);
    assert s[..44] == s[0..4] + s[4..12] + s[12..14] + s[14..44];
  }

  /** Only the first 44 bytes of a buffer make up the sender packet read from it. */
  lemma {:induction false} DecodeSenderPrefix(s: seq<u8>, t: seq<u8>)
    requires |s| >= STAMP_BASE_PACKET_SIZE && |t| >= STAMP_BASE_PACKET_SIZE
    requires s[..STAMP_BASE_PACKET_SIZE] == t[..STAMP_BASE_PACKET_SIZE]
    ensures DecodeSender(s) == DecodeSender(t)
  {
    assert forall i :: 0 <= i < STAMP_BASE_PACKET_SIZE ==> s[i] == s[..44][i] == t[..44][i] == t[i];
    assert s[14..44] == s[..44][14..] == t[..44][14..] == t[14..44];
  }

  /** Decoding an encoded reflector packet gives the packet back. */
  lemma {:induction false} ReflectorRoundTrip(p: ReflectorPacket)
    requires p.WellFormed()
    ensures DecodeReflector(EncodeReflector(p)) == Ok(p)
  {
    var b := EncodeReflector(p);
    ReflectorLayout(p);
    U32AtBE32(p.seqNum, b, 0);
    NtpAtEncodeNtp(p.timestamp, b, 4);
    U16AtBE16(p.errorEstimate, b, 12);
    U16AtBE16(p.mbz1, b, 14);
    NtpAtEncodeNtp(p.receiveTimestamp, b, 16);
    U32AtBE32(p.senderSeqNum, b, 24);
    NtpAtEncodeNtp(p.senderTimestamp, b, 28);
    U16AtBE16(p.senderErrorEstimate, b, 36);
    U16AtBE16(p.mbz2, b, 38);
  }

  /** Encoding a decoded reflector packet reproduces the first 44 bytes. */
  lemma {:induction false} ReflectorDecodeEncode(s: seq<u8>)
    requires |s| >= STAMP_BASE_PACKET_SIZE
    ensures EncodeReflector(DecodeReflector(s).value) == s[..44]
  {
    BE32U32At(s, 0);
    EncodeNtpAt(s, 4);
    BE16U16At(s, 12);
    BE16U16At(s, 14);
    EncodeNtpAt(s, 16);
    BE32U32At(s, 24);
    EncodeNtpAt(s, 28);
    BE16U16At(s, 36);
    BE16U16At(s, 38);
    assert s[..44] == s[0..4] + s[4..12] + s[12..14] + s[14..16] + s[16..24] + s[24..28]
      + s[28..36] + s[36..38] + s[38..40] + [s[40]] + s[41..44];
  }

  /** Only the first 44 bytes of a buffer make up the reflector packet read from it. */
  lemma {:induction false} DecodeReflectorPrefix(s: seq<u8>, t: seq<u8>)
    requires |s| >= STAMP_BASE_PACKET_SIZE && |t| >= STAMP_BASE_PACKET_SIZE
    requires s[..STAMP_BASE_PACKET_SIZE] == t[..STAMP_BASE_PACKET_SIZE]
    ensures DecodeReflector(s) == DecodeReflector(t)
  {
    assert forall i :: 0 <= i < STAMP_BASE_PACKET_SIZE ==> s[i] == s[..44][i] == t[..44][i] == t[i];
    assert s[41..44] == s[..44][41..] == t[..44][41..] == t[41..44];
  }

  /**
   * validate_stamp_packet: 1 when the datagram holds at least the 44 base
   * bytes, 0 otherwise. The packet contents are not looked at.
   */
  function ValidateStampPacket(packet: seq<u8>, size: int): (r: int)
    ensures r == 1 || r == 0
    ensures r == 1 <==> size >= STAMP_BASE_PACKET_SIZE
  {
    if size >= STAMP_BASE_PACKET_SIZE then 1 else 0
  }

  /** The verdict depends on the size alone, whatever the buffer holds. */
  lemma {:induction false} ValidateIgnoresContents(a: seq<u8>, b: seq<u8>, size: int)
    ensures ValidateStampPacket(a, size) == ValidateStampPacket(b, size)
  {
  }

  // ---------------------------------------------------------------------------
  // Error Estimate
  // ---------------------------------------------------------------------------

  /**
   * The fields of an Error Estimate: S flag, Z flag (0 = NTP format), Scale
   * and Multiplier, the last two kept as the 16-bit values the masks give.
   */
  datatype ErrorEstimate = ErrorEstimate(synchronized: bool, ptpFormat: bool, scale: bv16, multiplier: bv16)
  {
    ghost predicate WellFormed() { scale < 64 && multiplier < 256 }
  }

  /**
   * Splits an Error Estimate (|S|Z|Scale, 6 bits|Multiplier, 8 bits|) with
   * the masks ERROR_ESTIMATE_S_BIT 0x8000, ERROR_ESTIMATE_Z_BIT 0x4000,
   * ERROR_ESTIMATE_SCALE_MASK 0x3F00 and ERROR_ESTIMATE_MULT_MASK 0x00FF.
   */
  function DecodeErrorEstimate(e: bv16): (est: ErrorEstimate)
    ensures est.WellFormed()
  {
    ErrorEstimate(e & 0x8000 != 0, e & 0x4000 != 0, (e & 0x3F00) >> 8, e & 0x00FF)
  }

  /** Packs the four fields back into 16 bits. */
  function EncodeErrorEstimate(est: ErrorEstimate): bv16
    requires est.WellFormed()
  {
    (if est.synchronized then 0x8000 else 0)
    | (if est.ptpFormat then 0x4000 else 0)
    | (est.scale << 8)
    | est.multiplier
  }

  /** The masks partition the 16 bits: decoding then encoding is the identity. */
  lemma {:induction false} ErrorEstimateRoundTrip(e: bv16)
    ensures EncodeErrorEstimate(DecodeErrorEstimate(e)) == e
  {
  }

  /** Encoding well-formed fields and decoding them gives the fields back. */
  lemma {:induction false} ErrorEstimateFieldsRoundTrip(est: ErrorEstimate)
    requires est.WellFormed()
    ensures DecodeErrorEstimate(EncodeErrorEstimate(est)) == est
  {
  }

  /**
   * The default 0x8001 means synchronized, NTP format, Scale 0 and
   * Multiplier 1 (an error of Multiplier * 2^Scale = one 2^-32-second unit),
   * and goes on the wire as the bytes 0x80 0x01.
   */
  lemma {:induction false} DefaultErrorEstimate()
    ensures DecodeErrorEstimate(0x8001) == ErrorEstimate(true, false, 0, 1)
    ensures BE16(ERROR_ESTIMATE_DEFAULT) == [0x80, 0x01]
  {
  }
}
