/**
 * The stateless Session-Reflector: `recv_stamp_packet` (the POSIX recvmsg
 * path with its control-message scan), `reflect_packet` (the in-place
 * rewrite of the receive buffer into a reflector packet, section 4.3.1 of
 * RFC 8762), the zero padding and dispatch of the main receive loop, and
 * the `reflector_stats` counters.
 */
module Reflector {
  import opened Wire
  import opened NtpTime
  import opened Packets
  import opened ControlMessages
  import opened Platform

  // ---------------------------------------------------------------------------
  // Control-message scan of recv_stamp_packet
  // ---------------------------------------------------------------------------

  /** The hop count an IP_TTL or IPV6_HOPLIMIT record carries, when it lies in 0..255. */
  function TtlValue(c: Cmsg): (r: Option<u8>)
    ensures r.Some? ==> r.value == Word(c, 0)
    ensures r.Some? <==> (((c.level == IPPROTO_IP && c.kind == IP_TTL) || (c.level == IPPROTO_IPV6 && c.kind == IPV6_HOPLIMIT))
      && 0 <= Word(c, 0) <= 255)
  {
    if ((c.level == IPPROTO_IP && c.kind == IP_TTL) || (c.level == IPPROTO_IPV6 && c.kind == IPV6_HOPLIMIT))
      && 0 <= Word(c, 0) <= 255
    then Some(Word(c, 0))
    else None
  }

  /** The TTL after scanning `msgs`: it starts at 0 and each valid hop-count record overwrites it. */
  function ScanTtl(msgs: seq<Cmsg>): u8
  {
    if |msgs| == 0 then 0
    else
      var c := msgs[|msgs| - 1];
      if TtlValue(c).Some? then TtlValue(c).value else ScanTtl(msgs[..|msgs| - 1])
  }

  /**
   * The receive timestamp after scanning `msgs`: an SCM_TIMESTAMPNS record
   * always overwrites it, an SCM_TIMESTAMP record sets it only while none
   * has been found.
   */
  function ScanT2(msgs: seq<Cmsg>): Option<NtpTimestamp>
  {
    if |msgs| == 0 then None
    else
      var c := msgs[|msgs| - 1];
      var before := ScanT2(msgs[..|msgs| - 1]);
      if IsTimestampNs(c) then Some(TimespecToNtp(TimespecPayload(c)))
      else if before.None? && IsTimestamp(c) then Some(TimevalToNtp(TimevalPayload(c)))
      else before
  }

  /** The TTL is that of the last valid hop-count record, and 0 when there is none. */
  lemma {:induction false} ScanTtlLast(msgs: seq<Cmsg>)
    ensures (forall i :: 0 <= i < |msgs| ==> TtlValue(msgs[i]).None?) ==> ScanTtl(msgs) == 0
    ensures forall k :: (0 <= k < |msgs| && TtlValue(msgs[k]).Some?
      && (forall j :: k < j < |msgs| ==> TtlValue(msgs[j]).None?)) ==> ScanTtl(msgs) == TtlValue(msgs[k]).value
  {
    if |msgs| > 0 {
      var init := msgs[..|msgs| - 1];
      ScanTtlLast(init);
      assert forall i :: 0 <= i < |init| ==> init[i] == msgs[i];
    }
  }

  /** The kernel receive timestamp is the last SCM_TIMESTAMPNS record's when there is one. */
  lemma {:induction false} ScanT2LastNs(msgs: seq<Cmsg>, k: nat)
    requires k < |msgs| && IsTimestampNs(msgs[k])
    requires forall j :: k < j < |msgs| ==> !IsTimestampNs(msgs[j])
    ensures ScanT2(msgs) == Some(TimespecToNtp(TimespecPayload(msgs[k])))
  {
    if k < |msgs| - 1 {
      var init := msgs[..|msgs| - 1];
      assert init[k] == msgs[k];
      assert forall j :: k < j < |init| ==> init[j] == msgs[j];
      ScanT2LastNs(init, k);
    }
  }

  /** No timestamp is found exactly when no record of either kind is present. */
  lemma {:induction false} ScanT2None(msgs: seq<Cmsg>)
    ensures ScanT2(msgs).None? <==> forall i :: 0 <= i < |msgs| ==> !IsTimestampNs(msgs[i]) && !IsTimestamp(msgs[i])
  {
    if |msgs| > 0 {
      var init := msgs[..|msgs| - 1];
      ScanT2None(init);
      assert forall i :: 0 <= i < |init| ==> init[i] == msgs[i];
    }
  }

  /** Without any SCM_TIMESTAMPNS record, the first SCM_TIMESTAMP record gives the timestamp. */
  lemma {:induction false} ScanT2FirstTs(msgs: seq<Cmsg>, k: nat)
    requires k < |msgs| && IsTimestamp(msgs[k])
    requires forall j :: 0 <= j < |msgs| ==> !IsTimestampNs(msgs[j])
    requires forall j :: 0 <= j < k ==> !IsTimestamp(msgs[j])
    ensures ScanT2(msgs) == Some(TimevalToNtp(TimevalPayload(msgs[k])))
  {
    var init := msgs[..|msgs| - 1];
    assert forall j :: 0 <= j < |init| ==> init[j] == msgs[j];
    if k < |msgs| - 1 {
      ScanT2FirstTs(init, k);
    } else {
      ScanT2None(init);
    }
  }

  /**
   * recv_stamp_packet (POSIX): receives into `buffer`, takes the TTL and the
   * kernel receive timestamp from the control messages, and reads the clock
   * for T2 only when no kernel timestamp came. T2 stays (0, 0) when that
   * read fails, and on a receive error nothing but the TTL (0) is set.
   */
  method RecvStampPacket(sock: UdpSocket, clock: Clock, buffer: array<u8>)
    returns (n: int, peer: SockAddr, ttl: u8, t2: NtpTimestamp)
    modifies sock, clock, buffer
    ensures sock.recvCalls == old(sock.recvCalls) + 1
    ensures sock.inbound == if |old(sock.inbound)| == 0 then [] else old(sock.inbound)[1..]
    ensures sock.sendOutcomes == old(sock.sendOutcomes) && sock.transmissions == old(sock.transmissions)
    ensures old(sock.NextInbound()).Failure? ==>
      n == -1 && ttl == 0 && t2 == NtpTimestamp(0, 0)
      && buffer[..] == old(buffer[..]) && clock.readings == old(clock.readings)
    ensures old(sock.NextInbound()).Datagram? ==>
      var d := old(sock.NextInbound());
      var k := if |d.payload| < buffer.Length then |d.payload| else buffer.Length;
      && n == k && peer == d.from
      && buffer[..] == Splice(old(buffer[..]), 0, d.payload[..k])
      && ttl == ScanTtl(d.control)
      && (ScanT2(d.control).Some? ==> t2 == ScanT2(d.control).value && clock.readings == old(clock.readings))
      && (ScanT2(d.control).None? ==>
           t2 == (if old(clock.Next()).Some? then old(clock.Next()).value else NtpTimestamp(0, 0))
           && clock.readings == old(clock.Rest()))
  {
    ttl := 0;
    t2 := NtpTimestamp(0, 0);
    var control, errno;
    n, peer, control, errno := sock.RecvMsg(buffer);
    if n < 0 {
      n := -1;
      return;
    }
    var found := false;
    var i := 0;
    while i < |control|
      invariant 0 <= i <= |control|
      invariant found <==> ScanT2(control[..i]).Some?
      invariant found ==> t2 == ScanT2(control[..i]).value
      invariant !found ==> t2 == NtpTimestamp(0, 0)
      invariant ttl == ScanTtl(control[..i])
    {
      var c := control[i];
      assert control[..i + 1][..i] == control[..i];
      if c.level == SOL_SOCKET && c.kind == SCM_TIMESTAMPNS {
        t2 := TimespecToNtp(TimespecPayload(c));
        found := true;
      }
      if !found && c.level == SOL_SOCKET && c.kind == SCM_TIMESTAMP {
        t2 := TimevalToNtp(TimevalPayload(c));
        found := true;
      }
      if c.level == IPPROTO_IP && c.kind == IP_TTL {
        var recvTtl := Word(c, 0);
        if 0 <= recvTtl <= 255 {
          ttl := recvTtl;
        }
      }
      if c.level == IPPROTO_IPV6 && c.kind == IPV6_HOPLIMIT {
        var recvHop := Word(c, 0);
        if 0 <= recvHop <= 255 {
          ttl := recvHop;
        }
      }
      i := i + 1;
    }
    assert control[..|control|] == control;
    if !found {
      var now := clock.GetNtpTimestamp();
      if now.Some? {
        t2 := now.value;
      }
    }
  }

  // ---------------------------------------------------------------------------
  // reflect_packet
  // ---------------------------------------------------------------------------

  /**
   * The local `struct stamp_sender_packet` copy: the first min(send_len, 44)
   * received bytes over a zeroed structure.
   */
  function SnapshotBytes(s: seq<u8>, sendLen: nat): (b: seq<u8>)
    requires |s| >= STAMP_BASE_PACKET_SIZE
    ensures |b| == STAMP_BASE_PACKET_SIZE
    ensures forall i :: 0 <= i < STAMP_BASE_PACKET_SIZE ==> b[i] == if i < sendLen then s[i] else 0
  {
    var n := if sendLen < STAMP_BASE_PACKET_SIZE then sendLen else STAMP_BASE_PACKET_SIZE;
    s[..n] + Zeros(STAMP_BASE_PACKET_SIZE - n)
  }

  function Snapshot(s: seq<u8>, sendLen: nat): (p: SenderPacket)
    requires |s| >= STAMP_BASE_PACKET_SIZE
    ensures p.WellFormed()
  {
    DecodeSender(SnapshotBytes(s, sendLen)).value
  }

  /** The memset and memcpy that fill the local sender structure from the buffer. */
  method CopySender(buffer: array<u8>, sendLen: nat) returns (sender: SenderPacket)
    requires buffer.Length >= STAMP_BASE_PACKET_SIZE
    ensures sender == Snapshot(buffer[..], sendLen)
  {
    var copyLen := if sendLen < STAMP_BASE_PACKET_SIZE then sendLen else STAMP_BASE_PACKET_SIZE;
    var bytes := buffer[..copyLen] + Zeros(STAMP_BASE_PACKET_SIZE - copyLen);
    assert bytes == SnapshotBytes(buffer[..], sendLen);
    sender := DecodeSender(bytes).value;
  }

  /**
   * The stateless reflection of a sender packet (section 4.3.1 of RFC 8762):
   * the sender's sequence number is both the reflector's and the echoed one,
   * the sender's timestamp and error estimate are echoed, T2 is the receive
   * timestamp, T3 the transmit timestamp, the error estimate is 0x8001 and
   * every MBZ field is zero.
   */
  function Reflection(sender: SenderPacket, ttl: u8, t2: NtpTimestamp, t3: NtpTimestamp): (p: ReflectorPacket)
    ensures p.WellFormed()
  {
    ReflectorPacket(sender.seqNum, t3, ERROR_ESTIMATE_DEFAULT, 0, t2, sender.seqNum,
      sender.timestamp, sender.errorEstimate, 0, ttl, [0, 0, 0])
  }

  /**
   * The 44 bytes of the reflection of the sender packet at the start of
   * `b`, byte by byte: its sequence number, T3, the error estimate 0x8001
   * and a zero MBZ, T2, its first 14 bytes echoed (sequence number,
   * timestamp, error estimate), a zero MBZ, the TTL and three zero bytes.
   */
  function ReflectedHead(b: seq<u8>, ttl: u8, t2: NtpTimestamp, t3: NtpTimestamp): (h: seq<u8>)
    requires |b| >= STAMP_BASE_PACKET_SIZE
    ensures |h| == STAMP_BASE_PACKET_SIZE
  {
    b[..4] + EncodeNtp(t3) + [0x80, 0x01, 0, 0] + EncodeNtp(t2) + b[..14] + [0, 0, ttl, 0, 0, 0]
  }

  /** The head is the wire image of the reflection of the sender packet read from `b`. */
  lemma {:induction false} HeadIsReflection(b: seq<u8>, ttl: u8, t2: NtpTimestamp, t3: NtpTimestamp)
    requires |b| >= STAMP_BASE_PACKET_SIZE
    ensures ReflectedHead(b, ttl, t2, t3) == EncodeReflector(Reflection(DecodeSender(b).value, ttl, t2, t3))
  {
    var h := ReflectedHead(b, ttl, t2, t3);
    var e := EncodeReflector(Reflection(DecodeSender(b).value, ttl, t2, t3));
    HeadChunks(b, ttl, t2, t3);
    ReflectionChunks(b, ttl, t2, t3);
    ChunksEqual(h, e);
  }

  /** The head's fields, as the six runs 0..3, 4..11, 12..15, 16..23, 24..37 and 38..43. */
  lemma {:induction false} HeadChunks(b: seq<u8>, ttl: u8, t2: NtpTimestamp, t3: NtpTimestamp)
    requires |b| >= STAMP_BASE_PACKET_SIZE
    ensures var h := ReflectedHead(b, ttl, t2, t3);
      && h[..4] == b[..4] && h[4..12] == EncodeNtp(t3) && h[12..16] == [0x80, 0x01, 0, 0]
      && h[16..24] == EncodeNtp(t2) && h[24..38] == b[..14] && h[38..44] == [0, 0, ttl, 0, 0, 0]
  {
  }

  /** The same six runs of the encoded reflection. */
  lemma {:induction false} ReflectionChunks(b: seq<u8>, ttl: u8, t2: NtpTimestamp, t3: NtpTimestamp)
    requires |b| >= STAMP_BASE_PACKET_SIZE
    ensures var e := EncodeReflector(Reflection(DecodeSender(b).value, ttl, t2, t3));
      && e[..4] == b[..4] && e[4..12] == EncodeNtp(t3) && e[12..16] == [0x80, 0x01, 0, 0]
      && e[16..24] == EncodeNtp(t2) && e[24..38] == b[..14] && e[38..44] == [0, 0, ttl, 0, 0, 0]
  {
    var e := EncodeReflector(Reflection(DecodeSender(b).value, ttl, t2, t3));
    ReflectorLayout(Reflection(DecodeSender(b).value, ttl, t2, t3));
    DefaultErrorEstimate();
    BE32U32At(b, 0);
    EncodeNtpAt(b, 4);
    BE16U16At(b, 12);
    assert e[4..12] == e[4..8] + e[8..12];
    assert e[12..16] == e[12..14] + e[14..16];
    assert e[16..24] == e[16..20] + e[20..24];
    assert e[24..38] == e[24..28] + e[28..36] + e[36..38];
    assert e[28..36] == e[28..32] + e[32..36];
    assert b[..14] == b[0..4] + b[4..12] + b[12..14];
    assert e[38..44] == e[38..40] + [e[40]] + e[41..44];
  }

  /** Two 44-byte sequences that agree on the six runs are equal. */
  lemma {:induction false} ChunksEqual(x: seq<u8>, y: seq<u8>)
    requires |x| == |y| == STAMP_BASE_PACKET_SIZE
    requires x[..4] == y[..4] && x[4..12] == y[4..12] && x[12..16] == y[12..16]
    requires x[16..24] == y[16..24] && x[24..38] == y[24..38] && x[38..44] == y[38..44]
    ensures x == y
  {
    assert x == x[..4] + x[4..12] + x[12..16] + x[16..24] + x[24..38] + x[38..44];
    assert y == y[..4] + y[4..12] + y[12..16] + y[16..24] + y[24..38] + y[38..44];
  }

  /** Heads agree when the received bytes agree on 0..13, the only ones echoed. */
  lemma {:induction false} HeadPrefix(b: seq<u8>, c: seq<u8>, ttl: u8, t2: NtpTimestamp, t3: NtpTimestamp)
    requires |b| >= STAMP_BASE_PACKET_SIZE && |c| >= STAMP_BASE_PACKET_SIZE && b[..14] == c[..14]
    ensures ReflectedHead(b, ttl, t2, t3) == ReflectedHead(c, ttl, t2, t3)
  {
    assert b[..4] == b[..14][..4] == c[..14][..4] == c[..4];
  }

  /** The buffer after a reflection: the 44-byte reflector packet, then the received bytes beyond it. */
  function ReflectedImage(s: seq<u8>, sendLen: nat, ttl: u8, t2: NtpTimestamp, t3: NtpTimestamp): (r: seq<u8>)
    requires |s| >= STAMP_BASE_PACKET_SIZE
    ensures |r| == |s|
  {
    ReflectedHead(SnapshotBytes(s, sendLen), ttl, t2, t3) + s[STAMP_BASE_PACKET_SIZE..]
  }

  /** The reflected image starts with the wire image of the reflection of the snapshot. */
  lemma {:induction false} ReflectedImageIsReflection(s: seq<u8>, sendLen: nat, ttl: u8, t2: NtpTimestamp, t3: NtpTimestamp)
    requires |s| >= STAMP_BASE_PACKET_SIZE
    ensures ReflectedImage(s, sendLen, ttl, t2, t3)
      == EncodeReflector(Reflection(Snapshot(s, sendLen), ttl, t2, t3)) + s[STAMP_BASE_PACKET_SIZE..]
  {
    HeadIsReflection(SnapshotBytes(s, sendLen), ttl, t2, t3);
  }

  /**
   * The bytes of a reflected image, field by field: T3 at 4..11, the
   * constant error estimate, the MBZ fields zero, T2 at 16..23, the
   * snapshot's sequence number at 0..3 and 24..27, its timestamp at
   * 28..35, its error estimate at 36..37, the TTL at 40, and the received
   * bytes past the base packet untouched.
   */
  lemma {:induction false} ReflectedImageLayout(s: seq<u8>, sendLen: nat, ttl: u8, t2: NtpTimestamp, t3: NtpTimestamp)
    requires |s| >= STAMP_BASE_PACKET_SIZE
    ensures var r := ReflectedImage(s, sendLen, ttl, t2, t3);
      var p := Snapshot(s, sendLen);
      && r[0..4] == BE32(p.seqNum)
      && r[4..8] == BE32(t3.seconds) && r[8..12] == BE32(t3.fraction) && r[4..12] == EncodeNtp(t3)
      && r[12..14] == BE16(ERROR_ESTIMATE_DEFAULT) && r[12..14] == [0x80, 0x01]
      && r[14..16] == [0, 0]
      && r[16..20] == BE32(t2.seconds) && r[20..24] == BE32(t2.fraction) && r[16..24] == EncodeNtp(t2)
      && r[24..28] == BE32(p.seqNum)
      && r[28..32] == BE32(p.timestamp.seconds) && r[32..36] == BE32(p.timestamp.fraction)
      && r[36..38] == BE16(p.errorEstimate)
      && r[38..40] == [0, 0]
      && r[40..41] == [ttl] && r[40] == ttl
      && r[41..44] == [0, 0, 0]
      && r[STAMP_BASE_PACKET_SIZE..] == s[STAMP_BASE_PACKET_SIZE..]
  {
    var p := Reflection(Snapshot(s, sendLen), ttl, t2, t3);
    var r := ReflectedImage(s, sendLen, ttl, t2, t3);
    ReflectedImageIsReflection(s, sendLen, ttl, t2, t3);
    ReflectorLayout(p);
    assert r[..44] == EncodeReflector(p);
    assert r[4..12] == r[4..8] + r[8..12];
    assert r[16..24] == r[16..20] + r[20..24];
  }

  /**
   * The sender fields are echoed from the snapshot, so the overlapping
   * offsets are safe: bytes 0..3 and 24..27 repeat the received bytes 0..3,
   * bytes 28..35 the received 4..11 and bytes 36..37 the received 12..13,
   * where a received length below 44 reads the missing bytes as zero.
   */
  lemma {:induction false} ReflectionEchoesSender(s: seq<u8>, sendLen: nat, ttl: u8, t2: NtpTimestamp, t3: NtpTimestamp)
    requires |s| >= STAMP_BASE_PACKET_SIZE
    ensures var r := ReflectedImage(s, sendLen, ttl, t2, t3);
      var b := SnapshotBytes(s, sendLen);
      && r[0..4] == b[0..4] && r[24..28] == b[0..4]
      && r[28..36] == b[4..12] && r[36..38] == b[12..14]
    ensures sendLen >= STAMP_BASE_PACKET_SIZE ==> SnapshotBytes(s, sendLen) == s[..STAMP_BASE_PACKET_SIZE]
  {
    var b := SnapshotBytes(s, sendLen);
    assert b[..14][0..4] == b[0..4] && b[..14][4..12] == b[4..12] && b[..14][12..14] == b[12..14];
    if sendLen >= STAMP_BASE_PACKET_SIZE {
      assert b == s[..STAMP_BASE_PACKET_SIZE];
    }
  }

  /** The bytes of a reflected image past the transmit timestamp, which do not depend on T3. */
  function ImageTail(s: seq<u8>, sendLen: nat, ttl: u8, t2: NtpTimestamp): seq<u8>
    requires |s| >= STAMP_BASE_PACKET_SIZE
  {
    [0x80, 0x01, 0, 0] + EncodeNtp(t2) + SnapshotBytes(s, sendLen)[..14] + [0, 0, ttl, 0, 0, 0] + s[STAMP_BASE_PACKET_SIZE..]
  }

  /** A reflected image is the echoed sequence number, T3, and a tail that does not depend on T3. */
  lemma {:induction false} ReflectedImageSplit(s: seq<u8>, sendLen: nat, ttl: u8, t2: NtpTimestamp, t3: NtpTimestamp)
    requires |s| >= STAMP_BASE_PACKET_SIZE
    ensures ReflectedImage(s, sendLen, ttl, t2, t3)
      == SnapshotBytes(s, sendLen)[..4] + EncodeNtp(t3) + ImageTail(s, sendLen, ttl, t2)
  {
  }

  /** Two reflected images that differ only in T3 agree outside bytes 4..11. */
  lemma {:induction false} ReflectedImageT3Only(s: seq<u8>, sendLen: nat, ttl: u8, t2: NtpTimestamp, t3: NtpTimestamp, t3': NtpTimestamp)
    requires |s| >= STAMP_BASE_PACKET_SIZE
    ensures var r := ReflectedImage(s, sendLen, ttl, t2, t3);
      var r' := ReflectedImage(s, sendLen, ttl, t2, t3');
      r[..4] == r'[..4] && r[12..] == r'[12..]
  {
    ReflectedImageSplit(s, sendLen, ttl, t2, t3);
    ReflectedImageSplit(s, sendLen, ttl, t2, t3');
  }

  // Bookkeeping for the in-place rewrite: which bytes already hold their final value.

  /** `w` holds the target `e` where `done` is set and the original `s` elsewhere. */
  ghost predicate Tracks(w: seq<u8>, s: seq<u8>, e: seq<u8>, done: seq<bool>)
  {
    |w| == |s| == |e| == |done| && forall i :: 0 <= i < |w| ==> w[i] == if done[i] then e[i] else s[i]
  }

  /** `done` with the `n` flags from `off` set. */
  ghost function Mark(done: seq<bool>, off: nat, n: nat): (r: seq<bool>)
    requires off + n <= |done|
    ensures |r| == |done|
    ensures forall i :: 0 <= i < |done| ==> r[i] == (done[i] || off <= i < off + n)
  {
    seq(|done|, i requires 0 <= i < |done| => done[i] || off <= i < off + n)
  }

  /** A store of the target's own bytes extends the finished region by the stored range. */
  method Put(a: array<u8>, off: nat, b: seq<u8>, ghost s: seq<u8>, ghost e: seq<u8>, ghost done: seq<bool>)
    returns (ghost done': seq<bool>)
    requires off + |b| <= a.Length && Tracks(a[..], s, e, done) && e[off..off + |b|] == b
    modifies a
    ensures done' == Mark(done, off, |b|)
    ensures Tracks(a[..], s, e, done')
  {
    Store(a, off, b);
    done' := Mark(done, off, |b|);
    forall i | 0 <= i < a.Length
      ensures a[..][i] == if done'[i] then e[i] else s[i]
    {
      if off <= i < off + |b| {
        assert a[..][i] == b[i - off] == e[off..off + |b|][i - off];
      }
    }
  }

  /** The bytes the stores before T3 cover, marked in the code's order. */
  ghost function FieldMask(n: nat): (r: seq<bool>)
    requires n >= STAMP_BASE_PACKET_SIZE
    ensures |r| == n
  {
    var m0 := seq(n, _ => false);
    var m1 := Mark(Mark(Mark(Mark(m0, 0, 4), 24, 4), 28, 4), 32, 4);
    var m2 := Mark(Mark(Mark(Mark(m1, 36, 2), 40, 1), 16, 4), 20, 4);
    Mark(Mark(Mark(Mark(m2, 12, 2), 14, 2), 38, 2), 41, 3)
  }

  /** They cover every byte of the base packet but the transmit timestamp at 4..11. */
  lemma {:induction false} FieldMaskCovers(n: nat)
    requires n >= STAMP_BASE_PACKET_SIZE
    ensures forall i :: 0 <= i < n ==> (FieldMask(n)[i] <==> i < 4 || 12 <= i < STAMP_BASE_PACKET_SIZE)
  {
  }

  /**
   * `w` is `s` rewritten to `e` everywhere but the transmit timestamp:
   * bytes 4..11 still hold what `s` holds there.
   */
  ghost predicate Staged(w: seq<u8>, s: seq<u8>, e: seq<u8>)
  {
    && |w| == |s| == |e| >= STAMP_BASE_PACKET_SIZE
    && w[..4] == e[..4] && w[4..12] == s[4..12] && w[12..] == e[12..]
  }

  /** Every byte but 4..11 finished is the staged state. */
  lemma {:induction false} StagedByFieldMask(w: seq<u8>, s: seq<u8>, e: seq<u8>)
    requires |s| >= STAMP_BASE_PACKET_SIZE && Tracks(w, s, e, FieldMask(|s|))
    requires s[STAMP_BASE_PACKET_SIZE..] == e[STAMP_BASE_PACKET_SIZE..]
    ensures Staged(w, s, e)
  {
    FieldMaskCovers(|s|);
    assert forall i :: 44 <= i < |s| ==> s[i] == s[44..][i - 44] == e[44..][i - 44];
    assert w[..4] == e[..4];
    assert w[4..12] == s[4..12];
    assert w[12..] == e[12..];
  }

  /**
   * The stores reflect_packet makes before reading T3, in the code's order,
   * from the snapshot `sender`: afterwards every byte but the transmit
   * timestamp holds the reflected image.
   */
  method StoreReflectedFields(buffer: array<u8>, sendLen: nat, sender: SenderPacket, ttl: u8, t2: NtpTimestamp)
    requires buffer.Length >= STAMP_BASE_PACKET_SIZE && sender == Snapshot(buffer[..], sendLen)
    modifies buffer
    ensures Staged(buffer[..], old(buffer[..]), ReflectedImage(old(buffer[..]), sendLen, ttl, t2, NtpAt(old(buffer[..]), 4)))
  {
    ghost var s := buffer[..];
    ghost var e := ReflectedImage(s, sendLen, ttl, t2, NtpAt(s, 4));
    ReflectedImageLayout(s, sendLen, ttl, t2, NtpAt(s, 4));
    ghost var done := seq(|s|, _ => false);
    done := StoreEchoed(buffer, sender, s, e, done);
    done := StoreStamps(buffer, sender, ttl, t2, s, e, done);
    done := StoreConstants(buffer, s, e, done);
    StagedByFieldMask(buffer[..], s, e);
  }

  /** The first stores: the sequence number at 0 and 24 and the sender's timestamp at 28. */
  method StoreEchoed(buffer: array<u8>, sender: SenderPacket, ghost s: seq<u8>, ghost e: seq<u8>, ghost done: seq<bool>)
    returns (ghost done': seq<bool>)
    requires buffer.Length >= STAMP_BASE_PACKET_SIZE && Tracks(buffer[..], s, e, done)
    requires e[0..4] == BE32(sender.seqNum) && e[24..28] == BE32(sender.seqNum)
    requires e[28..32] == BE32(sender.timestamp.seconds) && e[32..36] == BE32(sender.timestamp.fraction)
    modifies buffer
    ensures done' == Mark(Mark(Mark(Mark(done, 0, 4), 24, 4), 28, 4), 32, 4)
    ensures Tracks(buffer[..], s, e, done')
  {
    done' := Put(buffer, 0, BE32(sender.seqNum), s, e, done);
    done' := Put(buffer, 24, BE32(sender.seqNum), s, e, done');
    done' := Put(buffer, 28, BE32(sender.timestamp.seconds), s, e, done');
    done' := Put(buffer, 32, BE32(sender.timestamp.fraction), s, e, done');
  }

  /** Then the sender's error estimate at 36, the TTL at 40 and T2 at 16. */
  method StoreStamps(buffer: array<u8>, sender: SenderPacket, ttl: u8, t2: NtpTimestamp,
                     ghost s: seq<u8>, ghost e: seq<u8>, ghost done: seq<bool>)
    returns (ghost done': seq<bool>)
    requires buffer.Length >= STAMP_BASE_PACKET_SIZE && Tracks(buffer[..], s, e, done)
    requires e[36..38] == BE16(sender.errorEstimate) && e[40..41] == [ttl]
    requires e[16..20] == BE32(t2.seconds) && e[20..24] == BE32(t2.fraction)
    modifies buffer
    ensures done' == Mark(Mark(Mark(Mark(done, 36, 2), 40, 1), 16, 4), 20, 4)
    ensures Tracks(buffer[..], s, e, done')
  {
    done' := Put(buffer, 36, BE16(sender.errorEstimate), s, e, done);
    done' := Put(buffer, 40, [ttl], s, e, done');
    done' := Put(buffer, 16, BE32(t2.seconds), s, e, done');
    done' := Put(buffer, 20, BE32(t2.fraction), s, e, done');
  }

  /** Last before T3: the reflector's error estimate and the MBZ fields. */
  method StoreConstants(buffer: array<u8>, ghost s: seq<u8>, ghost e: seq<u8>, ghost done: seq<bool>)
    returns (ghost done': seq<bool>)
    requires buffer.Length >= STAMP_BASE_PACKET_SIZE && Tracks(buffer[..], s, e, done)
    requires e[12..14] == BE16(ERROR_ESTIMATE_DEFAULT) && e[14..16] == [0, 0]
    requires e[38..40] == [0, 0] && e[41..44] == [0, 0, 0]
    modifies buffer
    ensures done' == Mark(Mark(Mark(Mark(done, 12, 2), 14, 2), 38, 2), 41, 3)
    ensures Tracks(buffer[..], s, e, done')
  {
    done' := Put(buffer, 12, BE16(ERROR_ESTIMATE_DEFAULT), s, e, done);
    done' := Put(buffer, 14, [0, 0], s, e, done');
    done' := Put(buffer, 38, [0, 0], s, e, done');
    done' := Put(buffer, 41, [0, 0, 0], s, e, done');
  }

  /** If T3 is never written, bytes 4..11 keep the received timestamp and the buffer is that image. */
  lemma {:induction false} T3Unwritten(w: seq<u8>, s: seq<u8>, sendLen: nat, ttl: u8, t2: NtpTimestamp)
    requires |s| >= STAMP_BASE_PACKET_SIZE
    requires Staged(w, s, ReflectedImage(s, sendLen, ttl, t2, NtpAt(s, 4)))
    ensures w == ReflectedImage(s, sendLen, ttl, t2, NtpAt(s, 4))
  {
    var e := ReflectedImage(s, sendLen, ttl, t2, NtpAt(s, 4));
    ReflectedImageLayout(s, sendLen, ttl, t2, NtpAt(s, 4));
    EncodeNtpAt(s, 4);
    assert w == w[..4] + w[4..12] + w[12..];
    assert e == e[..4] + e[4..12] + e[12..];
  }

  /** The last stores of reflect_packet: T3 into bytes 4..11 completes the reflected image. */
  method StoreT3(buffer: array<u8>, t3: NtpTimestamp, ghost s: seq<u8>, ghost sendLen: nat, ghost ttl: u8, ghost t2: NtpTimestamp)
    requires |s| >= STAMP_BASE_PACKET_SIZE
    requires Staged(buffer[..], s, ReflectedImage(s, sendLen, ttl, t2, NtpAt(s, 4)))
    modifies buffer
    ensures buffer[..] == ReflectedImage(s, sendLen, ttl, t2, t3)
  {
    ghost var w := buffer[..];
    ghost var e := ReflectedImage(s, sendLen, ttl, t2, t3);
    ReflectedImageLayout(s, sendLen, ttl, t2, t3);
    ReflectedImageT3Only(s, sendLen, ttl, t2, NtpAt(s, 4), t3);
    ghost var done := seq(|w|, _ => false);
    done := Put(buffer, 4, BE32(t3.seconds), w, e, done);
    done := Put(buffer, 8, BE32(t3.fraction), w, e, done);
    forall i | 0 <= i < |w| && !done[i] ensures w[i] == e[i] {
      if i < 4 {
        assert w[..4][i] == e[..4][i];
      } else {
        assert w[12..][i - 12] == e[12..][i - 12];
      }
    }
    Finished(buffer[..], w, e, done);
  }

  /** When every unfinished byte already agrees with the target, the buffer is the target. */
  lemma {:induction false} Finished(w: seq<u8>, s: seq<u8>, e: seq<u8>, done: seq<bool>)
    requires Tracks(w, s, e, done)
    requires forall i :: 0 <= i < |s| && !done[i] ==> s[i] == e[i]
    ensures w == e
  {
  }

  // ---------------------------------------------------------------------------
  // The reply to a datagram
  // ---------------------------------------------------------------------------

  /** A datagram shorter than the base packet, zero-padded to 44 bytes as the receive loop does. */
  function Padded(p: seq<u8>): (q: seq<u8>)
    ensures |q| == if |p| < STAMP_BASE_PACKET_SIZE then STAMP_BASE_PACKET_SIZE else |p|
    ensures q[..|p|] == p
    ensures forall i :: |p| <= i < |q| ==> q[i] == 0
  {
    if |p| < STAMP_BASE_PACKET_SIZE then p + Zeros(STAMP_BASE_PACKET_SIZE - |p|) else p
  }

  /**
   * The datagram the reflector sends back for a received payload `p`: the
   * reflection of the sender packet read from the padded payload, followed
   * by the payload's bytes past the base packet.
   */
  function Reply(p: seq<u8>, ttl: u8, t2: NtpTimestamp, t3: NtpTimestamp): (r: seq<u8>)
    ensures |r| == |Padded(p)|
  {
    var q := Padded(p);
    ReflectedHead(q, ttl, t2, t3) + q[STAMP_BASE_PACKET_SIZE..]
  }

  /** The bytes every reply carries whatever was received: a reflector packet with its constant fields. */
  predicate ReflectorShape(data: seq<u8>)
  {
    && STAMP_BASE_PACKET_SIZE <= |data| <= STAMP_MAX_PACKET_SIZE
    && data[0..4] == data[24..28]
    && data[12..14] == [0x80, 0x01] && data[14..16] == [0, 0]
    && data[38..40] == [0, 0] && data[41..44] == [0, 0, 0]
  }

  /** The constant bytes of a 44-byte reflector packet: the sequence number repeated, 0x8001, zero MBZ fields. */
  predicate ShapedHead(e: seq<u8>)
    requires |e| == STAMP_BASE_PACKET_SIZE
  {
    && e[0..4] == e[24..28]
    && e[12..14] == [0x80, 0x01] && e[14..16] == [0, 0]
    && e[38..40] == [0, 0] && e[41..44] == [0, 0, 0]
  }

  /** Every reflection encodes to a packet with the constant bytes. */
  lemma {:induction false} ReflectionShapedHead(sender: SenderPacket, ttl: u8, t2: NtpTimestamp, t3: NtpTimestamp)
    ensures ShapedHead(EncodeReflector(Reflection(sender, ttl, t2, t3)))
  {
    ReflectorLayout(Reflection(sender, ttl, t2, t3));
  }

  /** A datagram of 44 to 65507 bytes that starts with a shaped head is reflector-shaped. */
  lemma {:induction false} ShapedByHead(r: seq<u8>, e: seq<u8>)
    requires STAMP_BASE_PACKET_SIZE <= |r| <= STAMP_MAX_PACKET_SIZE && |e| == STAMP_BASE_PACKET_SIZE
    requires r[..STAMP_BASE_PACKET_SIZE] == e && ShapedHead(e)
    ensures ReflectorShape(r)
  {
    assert r[0..4] == e[0..4] && r[24..28] == e[24..28];
    assert r[12..14] == e[12..14] && r[14..16] == e[14..16];
    assert r[38..40] == e[38..40] && r[41..44] == e[41..44];
  }

  /**
   * A reply decodes to the reflection of the received sender packet, keeps
   * the bytes past the base packet, and has the reflector packet's shape.
   */
  lemma {:induction false} ReplyContents(p: seq<u8>, ttl: u8, t2: NtpTimestamp, t3: NtpTimestamp)
    requires 0 < |p| <= STAMP_MAX_PACKET_SIZE
    ensures var r := Reply(p, ttl, t2, t3);
      && DecodeReflector(r) == Ok(Reflection(DecodeSender(Padded(p)).value, ttl, t2, t3))
      && r[STAMP_BASE_PACKET_SIZE..] == Padded(p)[STAMP_BASE_PACKET_SIZE..]
      && ReflectorShape(r)
  {
    var q := Padded(p);
    var pkt := Reflection(DecodeSender(q).value, ttl, t2, t3);
    var r := Reply(p, ttl, t2, t3);
    var e := EncodeReflector(pkt);
    HeadIsReflection(q, ttl, t2, t3);
    assert r[..STAMP_BASE_PACKET_SIZE] == e;
    ReflectorRoundTrip(pkt);
    DecodeReflectorPrefix(r, e);
    ReflectionShapedHead(DecodeSender(q).value, ttl, t2, t3);
    ShapedByHead(r, e);
  }

  /** The buffer just before reflect_packet: `p` received over `b`, then the zero padding. */
  function Landed(b: seq<u8>, p: seq<u8>): (w: seq<u8>)
    requires |p| <= |b| && |b| >= STAMP_BASE_PACKET_SIZE
    ensures |w| == |b|
  {
    var w := Splice(b, 0, p);
    if |p| < STAMP_BASE_PACKET_SIZE then Splice(w, |p|, Zeros(STAMP_BASE_PACKET_SIZE - |p|)) else w
  }

  /** The landed buffer starts with the padded payload and keeps `b` past it. */
  lemma {:induction false} LandedPadded(b: seq<u8>, p: seq<u8>)
    requires |p| <= |b| && |b| >= STAMP_BASE_PACKET_SIZE
    ensures Landed(b, p)[..|Padded(p)|] == Padded(p)
    ensures Landed(b, p)[|Padded(p)|..] == b[|Padded(p)|..]
    ensures NtpAt(Landed(b, p), 4) == NtpAt(Padded(p), 4)
  {
    var w := Landed(b, p);
    var q := Padded(p);
    forall i | 0 <= i < |q| ensures w[i] == q[i] {
      if i < |p| {
        assert q[i] == q[..|p|][i];
      }
    }
    assert w[..|q|] == q;
    assert forall i :: 4 <= i < 12 ==> w[i] == q[i];
  }

  /** The sender structure copied from the landed buffer is the sender packet of the padded payload. */
  lemma {:induction false} SnapshotOfLanded(b: seq<u8>, p: seq<u8>)
    requires |p| <= |b| && |b| >= STAMP_BASE_PACKET_SIZE
    ensures SnapshotBytes(Landed(b, p), |Padded(p)|) == Padded(p)[..STAMP_BASE_PACKET_SIZE]
  {
    var w := Landed(b, p);
    var q := Padded(p);
    LandedPadded(b, p);
    assert w[..STAMP_BASE_PACKET_SIZE] == w[..|q|][..STAMP_BASE_PACKET_SIZE];
  }

  /** Past the base packet, the landed buffer holds the padded payload's extra bytes, then the rest of `b`. */
  lemma {:induction false} TailOfLanded(b: seq<u8>, p: seq<u8>)
    requires |p| <= |b| && |b| >= STAMP_BASE_PACKET_SIZE
    ensures Landed(b, p)[STAMP_BASE_PACKET_SIZE..] == Padded(p)[STAMP_BASE_PACKET_SIZE..] + b[|Padded(p)|..]
  {
    var w := Landed(b, p);
    var n := |Padded(p)|;
    LandedPadded(b, p);
    assert w[STAMP_BASE_PACKET_SIZE..] == w[..n][STAMP_BASE_PACKET_SIZE..] + w[n..];
  }

  /** Reflecting the landed buffer gives the reply to `p` followed by the untouched rest of `b`. */
  lemma {:induction false} ReplyOfLanded(b: seq<u8>, p: seq<u8>, ttl: u8, t2: NtpTimestamp, t3: NtpTimestamp)
    requires 0 < |p| <= |b| && |b| >= STAMP_BASE_PACKET_SIZE
    ensures ReflectedImage(Landed(b, p), |Padded(p)|, ttl, t2, t3) == Reply(p, ttl, t2, t3) + b[|Padded(p)|..]
  {
    SnapshotOfLanded(b, p);
    TailOfLanded(b, p);
    ReplyOfImage(Landed(b, p), p, b, ttl, t2, t3);
  }

  /** A buffer whose snapshot and tail are those of the padded payload reflects to the reply. */
  lemma {:induction false} ReplyOfImage(w: seq<u8>, p: seq<u8>, b: seq<u8>, ttl: u8, t2: NtpTimestamp, t3: NtpTimestamp)
    requires |w| >= STAMP_BASE_PACKET_SIZE && |Padded(p)| <= |b|
    requires SnapshotBytes(w, |Padded(p)|) == Padded(p)[..STAMP_BASE_PACKET_SIZE]
    requires w[STAMP_BASE_PACKET_SIZE..] == Padded(p)[STAMP_BASE_PACKET_SIZE..] + b[|Padded(p)|..]
    ensures ReflectedImage(w, |Padded(p)|, ttl, t2, t3) == Reply(p, ttl, t2, t3) + b[|Padded(p)|..]
  {
    var q := Padded(p);
    var snap := SnapshotBytes(w, |q|);
    assert snap[..14] == q[..14];
    HeadPrefix(snap, q, ttl, t2, t3);
  }

  /** T2 as the receive loop has it for datagram `d`: the kernel's, else the clock's next reading, else (0, 0). */
  function ReceiveT2(d: Inbound, readings: seq<Option<Timespec>>): NtpTimestamp
    requires d.Datagram?
  {
    if ScanT2(d.control).Some? then ScanT2(d.control).value
    else if ReadAt(readings, 0).Some? then ReadAt(readings, 0).value
    else NtpTimestamp(0, 0)
  }

  /** How many clock reads receiving `d` costs. */
  function T2Reads(d: Inbound): nat
  {
    if d.Datagram? && ScanT2(d.control).None? then 1 else 0
  }

  /** The bytes a receive of `d` lands in the 65507-byte buffer: none on an error, at most 65507 otherwise. */
  function Payload(d: Inbound): (p: seq<u8>)
    ensures |p| <= STAMP_MAX_PACKET_SIZE
  {
    if d.Failure? then []
    else if |d.payload| < STAMP_MAX_PACKET_SIZE then d.payload
    else d.payload[..STAMP_MAX_PACKET_SIZE]
  }

  /** How many clock reads a turn on `d` costs: the T2 fallback, and T3 when a datagram is reflected. */
  function ClockReads(d: Inbound): nat
  {
    T2Reads(d) + if |Payload(d)| > 0 then 1 else 0
  }

  /** T3 of a turn on `d`: the clock read after the T2 fallback, when the datagram is reflected. */
  function TurnT3(d: Inbound, readings: seq<Option<Timespec>>): Option<NtpTimestamp>
  {
    if |Payload(d)| > 0 then ReadAt(readings, T2Reads(d)) else None
  }

  /** The datagram a turn on `d` sends back, if any. */
  function Answer(d: Inbound, readings: seq<Option<Timespec>>): Option<seq<u8>>
  {
    if TurnT3(d, readings).Some? then
      Some(Reply(Payload(d), ScanTtl(d.control), ReceiveT2(d, readings), TurnT3(d, readings).value))
    else None
  }

  /**
   * The transmit timestamp a reflected buffer holds: T3 when the clock
   * read succeeds, otherwise the received bytes 4..11 left in place.
   */
  function Stamp(t3: Option<NtpTimestamp>, p: seq<u8>): NtpTimestamp
  {
    if t3.Some? then t3.value else NtpAt(Padded(p), 4)
  }

  /**
   * The buffer after a turn on `d` over the buffer `b`: unchanged when
   * nothing was received, otherwise the reflected datagram followed by
   * the bytes of `b` past it.
   */
  function BufferAfter(d: Inbound, readings: seq<Option<Timespec>>, b: seq<u8>): seq<u8>
    requires |b| == STAMP_MAX_PACKET_SIZE
  {
    var p := Payload(d);
    if |p| == 0 then b
    else Reply(p, ScanTtl(d.control), ReceiveT2(d, readings), Stamp(TurnT3(d, readings), Payload(d))) + b[|Padded(p)|..]
  }

  /** What reflect_packet leaves in the landed buffer is the reply, followed by the rest of `b`. */
  lemma {:induction false} TurnImage(p: seq<u8>, b: seq<u8>, w: seq<u8>, w': seq<u8>, sendLen: nat, ttl: u8, t2: NtpTimestamp,
                  t3: Option<NtpTimestamp>)
    requires 0 < |p| <= |b| && |b| >= STAMP_BASE_PACKET_SIZE && w == Landed(b, p) && sendLen == |Padded(p)|
    requires w' == ReflectedImage(w, sendLen, ttl, t2, if t3.Some? then t3.value else NtpAt(w, 4))
    ensures w' == Reply(p, ttl, t2, Stamp(t3, p)) + b[sendLen..]
    ensures w'[..sendLen] == Reply(p, ttl, t2, Stamp(t3, p))
  {
    LandedPadded(b, p);
    ReplyOfLanded(b, p, ttl, t2, Stamp(t3, p));
  }

  /** Whatever arrives, an answer has the reflector packet's shape. */
  lemma {:induction false} AnswerShape(d: Inbound, readings: seq<Option<Timespec>>)
    requires Answer(d, readings).Some?
    ensures ReflectorShape(Answer(d, readings).value)
  {
    ReplyContents(Payload(d), ScanTtl(d.control), ReceiveT2(d, readings), TurnT3(d, readings).value);
  }

  /**
   * The counters after `more` is appended to the log: counting on from
   * counters that account for `sent` accounts for `sent + more`.
   */
  lemma {:induction false} CountersAfter(r0: int, d0: int, sent: seq<Transmission>, more: seq<Transmission>,
                      reflected: u32, dropped: u32, reflected': u32, dropped': u32)
    requires reflected == Wrap32(r0 + Delivered(sent)) && dropped == Wrap32(d0 + Undelivered(sent))
    requires reflected' == Wrap32(reflected + Delivered(more)) && dropped' == Wrap32(dropped + Undelivered(more))
    ensures reflected' == Wrap32(r0 + Delivered(sent + more))
    ensures dropped' == Wrap32(d0 + Undelivered(sent + more))
  {
    CountConcat(sent, more);
    Wrap32Add(r0 + Delivered(sent), Delivered(more));
    Wrap32Add(d0 + Undelivered(sent), Undelivered(more));
  }

  /** Every datagram in a transmission log has the reflector packet's shape. */
  predicate AllShaped(ts: seq<Transmission>)
  {
    |ts| == 0 || (AllShaped(ts[..|ts| - 1]) && ReflectorShape(ts[|ts| - 1].data))
  }

  /** AllShaped holds exactly when each datagram of the log is reflector-shaped. */
  lemma {:induction false} AllShapedEach(ts: seq<Transmission>)
    ensures AllShaped(ts) <==> forall j :: 0 <= j < |ts| ==> ReflectorShape(ts[j].data)
  {
    if |ts| > 0 {
      var init := ts[..|ts| - 1];
      AllShapedEach(init);
      assert forall j :: 0 <= j < |init| ==> init[j] == ts[j];
    }
  }

  lemma {:induction false} ShapedConcat(xs: seq<Transmission>, ys: seq<Transmission>)
    requires AllShaped(xs) && AllShaped(ys)
    ensures AllShaped(xs + ys)
  {
    if |ys| > 0 {
      var init := ys[..|ys| - 1];
      ShapedConcat(xs, init);
      assert (xs + ys)[..|xs + ys| - 1] == xs + init;
    } else {
      assert xs + ys == xs;
    }
  }

  /**
   * The counters account for the log: the log is `start` followed by
   * `sent`, every datagram in `sent` is reflector-shaped, and the counters
   * stand at `r0` and `d0` plus the delivered and the failed sends of
   * `sent`, modulo 2^32.
   */
  ghost predicate Accounted(log: seq<Transmission>, reflected: u32, dropped: u32,
                            start: seq<Transmission>, r0: int, d0: int, sent: seq<Transmission>)
  {
    Counted(log, reflected, dropped, start, r0, d0, sent) && AllShaped(sent)
  }

  /** Accounted, short of the shape: the log and the counters since `start`, `r0` and `d0`. */
  ghost predicate Counted(log: seq<Transmission>, reflected: u32, dropped: u32,
                          start: seq<Transmission>, r0: int, d0: int, sent: seq<Transmission>)
  {
    && log == start + sent
    && reflected == Wrap32(r0 + Delivered(sent))
    && dropped == Wrap32(d0 + Undelivered(sent))
  }

  /** Appending sends, counted as they succeed or fail, keeps the log counted for. */
  lemma {:induction false} CountedAfter(log: seq<Transmission>, reflected: u32, dropped: u32,
                                        start: seq<Transmission>, r0: int, d0: int, sent: seq<Transmission>,
                                        more: seq<Transmission>, reflected': u32, dropped': u32)
    requires Counted(log, reflected, dropped, start, r0, d0, sent)
    requires reflected' == Wrap32(reflected + Delivered(more)) && dropped' == Wrap32(dropped + Undelivered(more))
    ensures Counted(log + more, reflected', dropped', start, r0, d0, sent + more)
  {
    CountersAfter(r0, d0, sent, more, reflected, dropped, reflected', dropped');
    LogAfter(log, start, sent, more);
  }

  /** Before the first turn nothing has been sent and the record of the turns is empty. */
  lemma {:induction false} ServeStart(log: seq<Transmission>, reflected: u32, dropped: u32, sc: Script)
    ensures Counted(log, reflected, dropped, log, reflected, dropped, [])
    ensures Served([], sc) == Turns(sc, 0)
  {
    assert log + [] == log;
  }

  /** After `n` turns that followed their record, the counters account for the log. */
  lemma {:induction false} ServeDone(log: seq<Transmission>, reflected: u32, dropped: u32,
                                     start: seq<Transmission>, r0: int, d0: int, sc: Script, n: nat, t: Served)
    requires Counted(log, reflected, dropped, start, r0, d0, t.sent)
    requires t == Turns(sc, n)
    ensures Accounted(log, reflected, dropped, start, r0, d0, t.sent) && |t.sent| <= n
  {
    TurnsShaped(sc, n);
  }

  lemma {:induction false} LogAfter(log: seq<Transmission>, start: seq<Transmission>, sent: seq<Transmission>, more: seq<Transmission>)
    requires log == start + sent
    ensures log + more == start + (sent + more)
  {
  }

  /** A log of one send: shaped when its datagram is, counted by its outcome. */
  lemma {:induction false} LogOfOne(t: Transmission)
    ensures AllShaped([t]) <==> ReflectorShape(t.data)
    ensures Delivered([t]) == (if t.delivered then 1 else 0)
    ensures Undelivered([t]) == (if t.delivered then 0 else 1)
  {
    assert [t][..0] == [];
  }

  /** The sends of a turn on `d`, whose send outcome is `ok`: the answer, if there is one. */
  function TurnLog(d: Inbound, readings: seq<Option<Timespec>>, ok: bool): seq<Transmission>
  {
    if TurnT3(d, readings).Some? then [Transmission(Answer(d, readings).value, d.from, ok)] else []
  }

  /** What a turn does to the log and the counters is to append its reflector-shaped sends and count them. */
  lemma {:induction false} TurnLogged(d: Inbound, readings: seq<Option<Timespec>>, ok: bool,
                                      log: seq<Transmission>, reflected: u32, dropped: u32,
                                      log': seq<Transmission>, reflected': u32, dropped': u32)
    requires TurnT3(d, readings).None? ==> log' == log && reflected' == reflected && dropped' == dropped
    requires TurnT3(d, readings).Some? ==>
      && log' == log + [Transmission(Answer(d, readings).value, d.from, ok)]
      && reflected' == (if ok then Wrap32(reflected + 1) else reflected)
      && dropped' == (if ok then dropped else Wrap32(dropped + 1))
    ensures log' == log + TurnLog(d, readings, ok)
    ensures AllShaped(TurnLog(d, readings, ok))
    ensures reflected' == Wrap32(reflected + Delivered(TurnLog(d, readings, ok)))
    ensures dropped' == Wrap32(dropped + Undelivered(TurnLog(d, readings, ok)))
  {
    if TurnT3(d, readings).Some? {
      AnswerShape(d, readings);
      LogOfOne(Transmission(Answer(d, readings).value, d.from, ok));
    } else {
      assert log + [] == log;
    }
  }

  /** The sends of a turn on the scripts `sc`: the answer to the next datagram, if there is one. */
  function TurnSends(sc: Script): seq<Transmission>
  {
    TurnLog(sc.NextInbound(), sc.readings, sc.NextSendSucceeds())
  }

  /**
   * The scripts left after a turn on `sc`: one `recvmsg` result and its
   * clock reads are consumed, and one `sendto` outcome when it is answered.
   */
  function TurnRest(sc: Script): Script
  {
    var d := sc.NextInbound();
    Script(Drop(sc.readings, ClockReads(d)),
           if TurnT3(d, sc.readings).Some? then Tail(sc.sendOutcomes) else sc.sendOutcomes,
           Tail(sc.inbound))
  }

  /** What the first turns have sent, and the scripts they left. */
  datatype Served = Served(sent: seq<Transmission>, rest: Script)

  /** A record of turns followed by one more turn on what they left. */
  function NextTurn(t: Served): Served
  {
    Served(t.sent + TurnSends(t.rest), TurnRest(t.rest))
  }

  /** The first `n` turns of the receive loop over the scripts `sc`. */
  function Turns(sc: Script, n: nat): Served
    decreases n, 0
  {
    if n == 0 then Served([], sc) else TurnsThrough(sc, n - 1)
  }

  /** The turns up to and including turn `i`. */
  function TurnsThrough(sc: Script, i: nat): Served
    decreases i, 1
  {
    NextTurn(Turns(sc, i))
  }

  /** Turn `n` extends the record of the `n` turns before it. */
  lemma {:induction false} TurnsNext(sc: Script, n: nat, sent: seq<Transmission>, rest: Script,
                                     more: seq<Transmission>, rest': Script)
    requires Served(sent, rest) == Turns(sc, n)
    requires more == TurnSends(rest) && rest' == TurnRest(rest)
    ensures Served(sent + more, rest') == Turns(sc, n + 1)
  {
    assert Turns(sc, n + 1) == TurnsThrough(sc, n);
  }

  /** A turn that follows its record keeps the log and counters counted, and extends the record. */
  lemma {:induction false} TurnAfter(log: seq<Transmission>, reflected: u32, dropped: u32,
                                     start: seq<Transmission>, r0: int, d0: int, sent: seq<Transmission>,
                                     sc0: Script, i: nat, sc: Script, more: seq<Transmission>,
                                     log': seq<Transmission>, reflected': u32, dropped': u32, rest': Script)
    requires Counted(log, reflected, dropped, start, r0, d0, sent)
    requires Served(sent, sc) == Turns(sc0, i)
    requires more == TurnSends(sc) && rest' == TurnRest(sc)
    requires log' == log + more
    requires reflected' == Wrap32(reflected + Delivered(more)) && dropped' == Wrap32(dropped + Undelivered(more))
    ensures Counted(log', reflected', dropped', start, r0, d0, sent + more)
    ensures Served(sent + more, rest') == Turns(sc0, i + 1)
  {
    CountedAfter(log, reflected, dropped, start, r0, d0, sent, more, reflected', dropped');
    TurnsNext(sc0, i, sent, sc, more, rest');
  }

  /** The scripts a turn leaves, as the receive, the clock reads and the send consumed them. */
  lemma {:induction false} TurnScripted(sc: Script, readings': seq<Option<Timespec>>, outcomes': seq<bool>, inbound': seq<Inbound>)
    requires inbound' == if |sc.inbound| == 0 then [] else sc.inbound[1..]
    requires readings' == Drop(sc.readings, ClockReads(sc.NextInbound()))
    requires TurnT3(sc.NextInbound(), sc.readings).None? ==> outcomes' == sc.sendOutcomes
    requires TurnT3(sc.NextInbound(), sc.readings).Some? ==>
      outcomes' == if |sc.sendOutcomes| == 0 then [] else sc.sendOutcomes[1..]
    ensures Script(readings', outcomes', inbound') == TurnRest(sc)
  {
  }

  /** A turn sends at most one datagram, and what it sends has the reflector packet's shape. */
  lemma {:induction false} TurnSendsShaped(sc: Script)
    ensures |TurnSends(sc)| <= 1 && AllShaped(TurnSends(sc))
  {
    var d := sc.NextInbound();
    if TurnT3(d, sc.readings).Some? {
      AnswerShape(d, sc.readings);
      assert TurnSends(sc)[..0] == [];
    }
  }

  /**
   * However the scripts go, `n` turns send at most `n` datagrams, each
   * with the reflector packet's shape.
   */
  lemma {:induction false} TurnsShaped(sc: Script, n: nat)
    ensures |Turns(sc, n).sent| <= n && AllShaped(Turns(sc, n).sent)
  {
    if n > 0 {
      var t := Turns(sc, n - 1);
      TurnsShaped(sc, n - 1);
      TurnSendsShaped(t.rest);
      ShapedConcat(t.sent, TurnSends(t.rest));
      assert Turns(sc, n) == NextTurn(t);
    }
  }

  /**
   * The receive step of the loop: recv_stamp_packet, then a datagram of 1
   * to 43 bytes is zero-padded in the buffer to 44 and `sendLen` is the
   * padded length. `n` is at most 0 exactly when the turn is skipped.
   */
  method ReceivePadded(sock: UdpSocket, clock: Clock, buffer: array<u8>)
    returns (n: int, peer: SockAddr, ttl: u8, t2: NtpTimestamp, sendLen: int)
    requires buffer.Length == STAMP_MAX_PACKET_SIZE
    modifies sock, clock, buffer
    ensures sock.recvCalls == old(sock.recvCalls) + 1
    ensures sock.inbound == if |old(sock.inbound)| == 0 then [] else old(sock.inbound)[1..]
    ensures sock.sendOutcomes == old(sock.sendOutcomes) && sock.transmissions == old(sock.transmissions)
    ensures clock.readings == Drop(old(clock.readings), T2Reads(old(sock.NextInbound())))
    ensures n <= 0 <==> |Payload(old(sock.NextInbound()))| == 0
    ensures n <= 0 ==> buffer[..] == old(buffer[..])
    ensures n > 0 ==>
      var d := old(sock.NextInbound());
      var p := Payload(d);
      && sendLen == |Padded(p)| && buffer[..] == Landed(old(buffer[..]), p)
      && peer == d.from && ttl == ScanTtl(d.control) && t2 == ReceiveT2(d, old(clock.readings))
  {
    ghost var d := sock.NextInbound();
    ghost var b := buffer[..];
    n, peer, ttl, t2 := RecvStampPacket(sock, clock, buffer);
    sendLen := n;
    if n <= 0 {
      if d.Datagram? {
        assert buffer[..] == b;
      }
      return;
    }
    assert Payload(d) == d.payload[..n];
    sendLen := PadShort(buffer, n, b, Payload(d));
  }

  /** The zero padding of a datagram of 1 to 43 bytes, received over `b`, to the 44-byte base packet. */
  method PadShort(buffer: array<u8>, n: int, ghost b: seq<u8>, ghost p: seq<u8>) returns (sendLen: int)
    requires buffer.Length == |b| == STAMP_MAX_PACKET_SIZE && 0 < n == |p| <= STAMP_MAX_PACKET_SIZE
    requires buffer[..] == Splice(b, 0, p)
    modifies buffer
    ensures sendLen == |Padded(p)| && buffer[..] == Landed(b, p)
  {
    sendLen := n;
    if sendLen < STAMP_BASE_PACKET_SIZE {
      Store(buffer, n, Zeros(STAMP_BASE_PACKET_SIZE - n));
      sendLen := STAMP_BASE_PACKET_SIZE;
    }
  }

  class ReflectorStats {
    var packetsReflected: u32
    var packetsDropped: u32

    constructor()
      ensures packetsReflected == 0 && packetsDropped == 0
    {
      packetsReflected, packetsDropped := 0, 0;
    }

    /**
     * reflect_packet: rejects a length outside 1..65507 without touching
     * anything; otherwise rewrites the buffer in place (the snapshot is
     * taken before the first store, so the overlapping fields are copied
     * from the received values), reads T3 last, and sends exactly `sendLen`
     * bytes. A failed T3 read returns -1 with bytes 4..11 as they were and
     * no send; a failed send counts a drop, a successful one a reflection.
     */
    method ReflectPacket(sock: UdpSocket, clock: Clock, buffer: array<u8>, sendLen: int,
                         peer: SockAddr, ttl: u8, t2: NtpTimestamp) returns (rc: int)
      requires buffer.Length == STAMP_MAX_PACKET_SIZE
      modifies this, sock, clock, buffer
      ensures rc == 0 || rc == -1
      ensures sock.inbound == old(sock.inbound) && sock.recvCalls == old(sock.recvCalls)
      ensures sendLen <= 0 || sendLen > STAMP_MAX_PACKET_SIZE ==>
        rc == -1 && buffer[..] == old(buffer[..]) && clock.readings == old(clock.readings)
        && packetsReflected == old(packetsReflected) && packetsDropped == old(packetsDropped)
        && sock.transmissions == old(sock.transmissions) && sock.sendOutcomes == old(sock.sendOutcomes)
      ensures 0 < sendLen <= STAMP_MAX_PACKET_SIZE ==>
        var t3 := old(clock.Next());
        && clock.readings == old(clock.Rest())
        && buffer[..] == ReflectedImage(old(buffer[..]), sendLen, ttl, t2,
                           if t3.Some? then t3.value else NtpAt(old(buffer[..]), 4))
        && (t3.None? ==>
             rc == -1 && packetsReflected == old(packetsReflected) && packetsDropped == old(packetsDropped)
             && sock.transmissions == old(sock.transmissions) && sock.sendOutcomes == old(sock.sendOutcomes))
        && (t3.Some? ==>
             var ok := old(sock.NextSendSucceeds());
             && sock.transmissions == old(sock.transmissions) + [Transmission(buffer[..sendLen], peer, ok)]
             && sock.sendOutcomes == (if |old(sock.sendOutcomes)| == 0 then [] else old(sock.sendOutcomes)[1..])
             && rc == (if ok then 0 else -1)
             && packetsReflected == (if ok then Wrap32(old(packetsReflected) + 1) else old(packetsReflected))
             && packetsDropped == (if ok then old(packetsDropped) else Wrap32(old(packetsDropped) + 1)))
    {
      if sendLen <= 0 || sendLen > STAMP_MAX_PACKET_SIZE {
        return -1;
      }
      ghost var s := buffer[..];
      var sender := CopySender(buffer, sendLen);
      StoreReflectedFields(buffer, sendLen, sender, ttl, t2);
      rc := StampAndSend(sock, clock, buffer, sendLen, peer, s, ttl, t2);
    }

    /**
     * The end of reflect_packet, once every field but T3 is stored: read T3,
     * and on success store it and send the first `sendLen` bytes.
     */
    method StampAndSend(sock: UdpSocket, clock: Clock, buffer: array<u8>, sendLen: nat, peer: SockAddr,
                        ghost s: seq<u8>, ttl: u8, t2: NtpTimestamp) returns (rc: int)
      requires buffer.Length == |s| == STAMP_MAX_PACKET_SIZE && 0 < sendLen <= STAMP_MAX_PACKET_SIZE
      requires Staged(buffer[..], s, ReflectedImage(s, sendLen, ttl, t2, NtpAt(s, 4)))
      modifies this, sock, clock, buffer
      ensures sock.inbound == old(sock.inbound) && sock.recvCalls == old(sock.recvCalls)
      ensures var t3 := old(clock.Next());
        && clock.readings == old(clock.Rest())
        && buffer[..] == ReflectedImage(s, sendLen, ttl, t2, if t3.Some? then t3.value else NtpAt(s, 4))
        && (t3.None? ==>
             rc == -1 && packetsReflected == old(packetsReflected) && packetsDropped == old(packetsDropped)
             && sock.transmissions == old(sock.transmissions) && sock.sendOutcomes == old(sock.sendOutcomes))
        && (t3.Some? ==>
             var ok := old(sock.NextSendSucceeds());
             && sock.transmissions == old(sock.transmissions) + [Transmission(buffer[..sendLen], peer, ok)]
             && sock.sendOutcomes == (if |old(sock.sendOutcomes)| == 0 then [] else old(sock.sendOutcomes)[1..])
             && rc == (if ok then 0 else -1)
             && packetsReflected == (if ok then Wrap32(old(packetsReflected) + 1) else old(packetsReflected))
             && packetsDropped == (if ok then old(packetsDropped) else Wrap32(old(packetsDropped) + 1)))
    {
      var t3 := clock.GetNtpTimestamp();
      if t3.None? {
        T3Unwritten(buffer[..], s, sendLen, ttl, t2);
        return -1;
      }
      StoreT3(buffer, t3.value, s, sendLen, ttl, t2);
      rc := Transmit(sock, buffer[..sendLen], peer);
    }

    /**
     * One turn of the reflector's receive loop: receive a datagram with its
     * TTL and T2, skip it on a receive error or when it is empty, zero-pad
     * it to 44 bytes when shorter, and reflect it in place. What is sent
     * back is `Answer`: the reply to the received bytes, T3 being the clock
     * read that follows the T2 fallback.
     */
    method ServeOnce(sock: UdpSocket, clock: Clock, buffer: array<u8>)
      requires buffer.Length == STAMP_MAX_PACKET_SIZE
      modifies this, sock, clock, buffer
      ensures sock.recvCalls == old(sock.recvCalls) + 1
      ensures sock.inbound == if |old(sock.inbound)| == 0 then [] else old(sock.inbound)[1..]
      ensures clock.readings == Drop(old(clock.readings), ClockReads(old(sock.NextInbound())))
      ensures buffer[..] == BufferAfter(old(sock.NextInbound()), old(clock.readings), old(buffer[..]))
      ensures TurnT3(old(sock.NextInbound()), old(clock.readings)).None? ==>
        && sock.transmissions == old(sock.transmissions) && sock.sendOutcomes == old(sock.sendOutcomes)
        && packetsReflected == old(packetsReflected) && packetsDropped == old(packetsDropped)
      ensures TurnT3(old(sock.NextInbound()), old(clock.readings)).Some? ==>
        var ok := old(sock.NextSendSucceeds());
        && sock.transmissions == old(sock.transmissions)
             + [Transmission(Answer(old(sock.NextInbound()), old(clock.readings)).value, old(sock.NextInbound()).from, ok)]
        && sock.sendOutcomes == (if |old(sock.sendOutcomes)| == 0 then [] else old(sock.sendOutcomes)[1..])
        && packetsReflected == (if ok then Wrap32(old(packetsReflected) + 1) else old(packetsReflected))
        && packetsDropped == (if ok then old(packetsDropped) else Wrap32(old(packetsDropped) + 1))
    {
      ghost var d := sock.NextInbound();
      ghost var b := buffer[..];
      ghost var r := clock.readings;
      var n, peer, ttl, t2, sendLen := ReceivePadded(sock, clock, buffer);
      if n <= 0 {
        return;
      }
      ghost var t3 := clock.Next();
      assert t3 == TurnT3(d, r);
      ReflectReceived(sock, clock, buffer, sendLen, peer, ttl, t2, Payload(d), b, t3);
      DropDrop(r, T2Reads(d), 1);
    }

    /**
     * The second half of a turn: reflect the payload `p`, landed over the
     * buffer `b`, in place and send it back. `t3` is the clock's next
     * reading, which reflect_packet takes as T3.
     */
    method ReflectReceived(sock: UdpSocket, clock: Clock, buffer: array<u8>, sendLen: int, peer: SockAddr, ttl: u8,
                           t2: NtpTimestamp, ghost p: seq<u8>, ghost b: seq<u8>, ghost t3: Option<NtpTimestamp>)
      requires buffer.Length == STAMP_MAX_PACKET_SIZE && |b| == STAMP_MAX_PACKET_SIZE && 0 < |p| <= STAMP_MAX_PACKET_SIZE
      requires buffer[..] == Landed(b, p) && sendLen == |Padded(p)| && t3 == clock.Next()
      modifies this, sock, clock, buffer
      ensures sock.recvCalls == old(sock.recvCalls) && sock.inbound == old(sock.inbound)
      ensures clock.readings == old(clock.Rest())
      ensures buffer[..] == Reply(p, ttl, t2, Stamp(t3, p)) + b[sendLen..]
      ensures t3.None? ==>
        && sock.transmissions == old(sock.transmissions) && sock.sendOutcomes == old(sock.sendOutcomes)
        && packetsReflected == old(packetsReflected) && packetsDropped == old(packetsDropped)
      ensures t3.Some? ==>
        var ok := old(sock.NextSendSucceeds());
        && sock.transmissions == old(sock.transmissions) + [Transmission(Reply(p, ttl, t2, t3.value), peer, ok)]
        && sock.sendOutcomes == (if |old(sock.sendOutcomes)| == 0 then [] else old(sock.sendOutcomes)[1..])
        && packetsReflected == (if ok then Wrap32(old(packetsReflected) + 1) else old(packetsReflected))
        && packetsDropped == (if ok then old(packetsDropped) else Wrap32(old(packetsDropped) + 1))
    {
      ghost var w := buffer[..];
      var rc := ReflectPacket(sock, clock, buffer, sendLen, peer, ttl, t2);
      TurnImage(p, b, w, buffer[..], sendLen, ttl, t2, t3);
    }

    /** Accounted, for the socket's log and these counters. */
    ghost predicate Accounts(sock: UdpSocket, start: seq<Transmission>, r0: int, d0: int, sent: seq<Transmission>)
      reads this, sock
    {
      Accounted(sock.transmissions, packetsReflected, packetsDropped, start, r0, d0, sent)
    }

    /** Counted, for the socket's log and these counters. */
    ghost predicate Counts(sock: UdpSocket, start: seq<Transmission>, r0: int, d0: int, sent: seq<Transmission>)
      reads this, sock
    {
      Counted(sock.transmissions, packetsReflected, packetsDropped, start, r0, d0, sent)
    }

    /**
     * The receive loop for `turns` turns (the loop runs until a signal
     * clears g_running). Every datagram sent is a reflector packet of 44
     * to 65507 bytes echoing its sequence number, with the constant error
     * estimate and zero MBZ fields, and the counters count the log modulo
     * 2^32: a reflection per delivered reply, a drop per failed send.
     */
    method Serve(sock: UdpSocket, clock: Clock, buffer: array<u8>, turns: nat) returns (ghost sent: seq<Transmission>)
      requires buffer.Length == STAMP_MAX_PACKET_SIZE
      modifies this, sock, clock, buffer
      ensures sock.recvCalls == old(sock.recvCalls) + turns
      ensures Served(sent, ScriptOf(clock, sock)) == Turns(old(ScriptOf(clock, sock)), turns)
      ensures |sent| <= turns
      ensures Accounts(sock, old(sock.transmissions), old(packetsReflected), old(packetsDropped), sent)
    {
      ghost var sc0 := ScriptOf(clock, sock);
      sent := [];
      ServeStart(sock.transmissions, packetsReflected, packetsDropped, sc0);
      var i := 0;
      while i < turns
        invariant 0 <= i <= turns
        invariant sock.recvCalls == old(sock.recvCalls) + i
        invariant Served(sent, ScriptOf(clock, sock)) == Turns(sc0, i)
        invariant Counts(sock, old(sock.transmissions), old(packetsReflected), old(packetsDropped), sent)
      {
        sent := Step(sock, clock, buffer, i, sc0, old(sock.transmissions), old(packetsReflected), old(packetsDropped), sent);
        i := i + 1;
      }
      ServeDone(sock.transmissions, packetsReflected, packetsDropped, old(sock.transmissions), old(packetsReflected),
                old(packetsDropped), sc0, turns, Served(sent, ScriptOf(clock, sock)));
    }

    /** One turn of the loop keeps the counters counting the log, and follows the record of the turns. */
    method Step(sock: UdpSocket, clock: Clock, buffer: array<u8>, ghost i: nat, ghost sc0: Script,
                ghost start: seq<Transmission>, ghost r0: int, ghost d0: int, ghost sent: seq<Transmission>)
      returns (ghost sent': seq<Transmission>)
      requires buffer.Length == STAMP_MAX_PACKET_SIZE
      requires Counted(sock.transmissions, packetsReflected, packetsDropped, start, r0, d0, sent)
      requires Served(sent, ScriptOf(clock, sock)) == Turns(sc0, i)
      modifies this, sock, clock, buffer
      ensures sock.recvCalls == old(sock.recvCalls) + 1
      ensures Counted(sock.transmissions, packetsReflected, packetsDropped, start, r0, d0, sent')
      ensures Served(sent', ScriptOf(clock, sock)) == Turns(sc0, i + 1)
    {
      ghost var log := sock.transmissions;
      ghost var pr := packetsReflected;
      ghost var pd := packetsDropped;
      ghost var sc := ScriptOf(clock, sock);
      ghost var more := Turn(sock, clock, buffer);
      sent' := sent + more;
      TurnAfter(log, pr, pd, start, r0, d0, sent, sc0, i, sc, more, sock.transmissions, packetsReflected, packetsDropped,
                ScriptOf(clock, sock));
    }

    /** A turn as the loop sees it: the log grows by reflector-shaped datagrams the counters account for. */
    method Turn(sock: UdpSocket, clock: Clock, buffer: array<u8>) returns (ghost more: seq<Transmission>)
      requires buffer.Length == STAMP_MAX_PACKET_SIZE
      modifies this, sock, clock, buffer
      ensures more == TurnSends(old(ScriptOf(clock, sock))) && ScriptOf(clock, sock) == TurnRest(old(ScriptOf(clock, sock)))
      ensures sock.recvCalls == old(sock.recvCalls) + 1
      ensures sock.transmissions == old(sock.transmissions) + more
      ensures AllShaped(more)
      ensures packetsReflected == Wrap32(old(packetsReflected) + Delivered(more))
      ensures packetsDropped == Wrap32(old(packetsDropped) + Undelivered(more))
    {
      ghost var sc := ScriptOf(clock, sock);
      ghost var d := sock.NextInbound();
      ghost var rs := clock.readings;
      ghost var ok := sock.NextSendSucceeds();
      ghost var log := sock.transmissions;
      ghost var pr := packetsReflected;
      ghost var pd := packetsDropped;
      ServeOnce(sock, clock, buffer);
      more := TurnLog(d, rs, ok);
      TurnScripted(sc, clock.readings, sock.sendOutcomes, sock.inbound);
      TurnLogged(d, rs, ok, log, pr, pd, sock.transmissions, packetsReflected, packetsDropped);
    }

    /** The sendto of reflect_packet and the counter it bumps: a drop on failure, a reflection on success. */
    method Transmit(sock: UdpSocket, data: seq<u8>, peer: SockAddr) returns (rc: int)
      modifies this, sock
      ensures var ok := old(sock.NextSendSucceeds());
        && sock.transmissions == old(sock.transmissions) + [Transmission(data, peer, ok)]
        && sock.sendOutcomes == (if |old(sock.sendOutcomes)| == 0 then [] else old(sock.sendOutcomes)[1..])
        && sock.inbound == old(sock.inbound) && sock.recvCalls == old(sock.recvCalls)
        && rc == (if ok then 0 else -1)
        && packetsReflected == (if ok then Wrap32(old(packetsReflected) + 1) else old(packetsReflected))
        && packetsDropped == (if ok then old(packetsDropped) else Wrap32(old(packetsDropped) + 1))
    {
      var sent := sock.SendTo(data, peer);
      if sent < 0 {
        packetsDropped := Wrap32(packetsDropped + 1);
        return -1;
      }
      packetsReflected := Wrap32(packetsReflected + 1);
      rc := 0;
    }
  }
}
