/**
 * The Session-Sender: `send_stamp_packet` (the probe of section 4.2.1 of
 * RFC 8762), `recv_with_timestamp` (the POSIX recvmsg path with its
 * first-kernel-timestamp scan), the gating and the statistics update of
 * `receive_and_process_packet`, and the sequence counter of the main loop.
 *
 * The floating-point arithmetic on the four timestamps (ntp_to_double, the
 * forward and backward delays, the RTT, the offset) is a parameter: a
 * `DelayModel` maps T1..T4 to the RTT that is accumulated and to whether
 * the reply raises the negative-delay flag.
 */
module Sender {
  import opened Wire
  import opened NtpTime
  import opened Packets
  import opened ControlMessages
  import opened Platform

  // ---------------------------------------------------------------------------
  // The probe
  // ---------------------------------------------------------------------------

  /** The probe `send_stamp_packet` builds: seq, T1, the default error estimate, 30 zero bytes. */
  function Probe(seqNum: u32, t1: NtpTimestamp): (b: seq<u8>)
    ensures |b| == STAMP_BASE_PACKET_SIZE
  {
    EncodeSender(SenderPacket(seqNum, t1, ERROR_ESTIMATE_DEFAULT, Zeros(30)))
  }

  /** The probe's bytes: seq at 0..3, T1 at 4..11, 0x8001 at 12..13, zero from 14 on; it decodes to its fields. */
  lemma {:induction false} ProbeLayout(seqNum: u32, t1: NtpTimestamp)
    ensures var b := Probe(seqNum, t1);
      && b[..4] == BE32(seqNum) && b[4..12] == EncodeNtp(t1) && b[12..14] == [0x80, 0x01]
      && (forall i :: 14 <= i < STAMP_BASE_PACKET_SIZE ==> b[i] == 0)
      && U32At(b, 0) == seqNum && NtpAt(b, 4) == t1
      && DecodeSender(b) == Ok(SenderPacket(seqNum, t1, ERROR_ESTIMATE_DEFAULT, Zeros(30)))
  {
    var p := SenderPacket(seqNum, t1, ERROR_ESTIMATE_DEFAULT, Zeros(30));
    SenderLayout(p);
    SenderRoundTrip(p);
    DefaultErrorEstimate();
    assert Probe(seqNum, t1)[4..12] == Probe(seqNum, t1)[4..8] + Probe(seqNum, t1)[8..12];
  }

  /** A datagram that is the probe for `seqNum`, with whatever T1 it carries. */
  predicate ProbeShape(data: seq<u8>, seqNum: u32)
  {
    |data| == STAMP_BASE_PACKET_SIZE && data == Probe(seqNum, NtpAt(data, 4))
  }

  /** Every probe has the probe shape, and the shape fixes the sequence number. */
  lemma {:induction false} ProbeShapeOf(seqNum: u32, t1: NtpTimestamp, data: seq<u8>, other: u32)
    ensures ProbeShape(Probe(seqNum, t1), seqNum)
    ensures ProbeShape(data, other) ==> U32At(data, 0) == other
  {
    ProbeLayout(seqNum, t1);
    if ProbeShape(data, other) {
      ProbeLayout(other, NtpAt(data, 4));
    }
  }

  /** The zeroed structure with seq and error estimate written: the probe with T1 = (0, 0). */
  lemma {:induction false} ProbeUnstamped(seqNum: u32, w: seq<u8>)
    requires w == Splice(Splice(Zeros(STAMP_BASE_PACKET_SIZE), 0, BE32(seqNum)), 12, BE16(ERROR_ESTIMATE_DEFAULT))
    ensures w == Probe(seqNum, NtpTimestamp(0, 0))
  {
    var z := NtpTimestamp(0, 0);
    ProbeLayout(seqNum, z);
    DefaultErrorEstimate();
    var p := Probe(seqNum, z);
    assert EncodeNtp(z) == [0, 0, 0, 0, 0, 0, 0, 0];
    assert forall i :: 0 <= i < STAMP_BASE_PACKET_SIZE ==> w[i] == p[i] by {
      forall i | 0 <= i < STAMP_BASE_PACKET_SIZE
        ensures w[i] == p[i]
      {
        if i < 4 {
          assert w[i] == BE32(seqNum)[i] == p[..4][i];
        } else if i < 12 {
          assert w[i] == 0 == p[4..12][i - 4];
        } else if i < 14 {
          assert w[i] == BE16(ERROR_ESTIMATE_DEFAULT)[i - 12] == p[12..14][i - 12];
        }
      }
    }
  }

  /** Writing T1 at offset 4 of the unstamped probe gives the probe for T1. */
  lemma {:induction false} ProbeStamped(seqNum: u32, t1: NtpTimestamp)
    ensures Splice(Probe(seqNum, NtpTimestamp(0, 0)), 4, EncodeNtp(t1)) == Probe(seqNum, t1)
  {
    var u := Probe(seqNum, NtpTimestamp(0, 0));
    var p := Probe(seqNum, t1);
    var w := Splice(u, 4, EncodeNtp(t1));
    ProbeLayout(seqNum, NtpTimestamp(0, 0));
    ProbeLayout(seqNum, t1);
    assert w[..4] == u[..4] == p[..4];
    assert w[4..12] == EncodeNtp(t1) == p[4..12];
    assert w[12..] == u[12..] == p[12..] by {
      assert u[12..14] == p[12..14];
      assert forall i :: 12 <= i < STAMP_BASE_PACKET_SIZE ==> u[i] == p[i];
    }
    assert w == w[..4] + w[4..12] + w[12..];
    assert p == p[..4] + p[4..12] + p[12..];
  }

  // ---------------------------------------------------------------------------
  // Control-message scan of recv_with_timestamp
  // ---------------------------------------------------------------------------

  /** A record the scan takes a receive timestamp from. */
  predicate IsKernelStamp(c: Cmsg)
  {
    IsTimestampNs(c) || IsTimestamp(c)
  }

  /** The timestamp an SCM_TIMESTAMPNS or SCM_TIMESTAMP record carries. */
  function StampOf(c: Cmsg): NtpTimestamp
    requires IsKernelStamp(c)
  {
    if IsTimestampNs(c) then TimespecToNtp(TimespecPayload(c)) else TimevalToNtp(TimevalPayload(c))
  }

  /** The scan of recv_with_timestamp: the first SCM_TIMESTAMPNS or SCM_TIMESTAMP record ends it. */
  function FirstStamp(msgs: seq<Cmsg>): Option<NtpTimestamp>
  {
    if |msgs| == 0 then None
    else if IsKernelStamp(msgs[0]) then Some(StampOf(msgs[0]))
    else FirstStamp(msgs[1..])
  }

  /** The first kernel-timestamp record decides, whatever follows it. */
  lemma {:induction false} FirstStampIs(msgs: seq<Cmsg>, k: nat)
    requires k < |msgs| && IsKernelStamp(msgs[k])
    requires forall j :: 0 <= j < k ==> !IsKernelStamp(msgs[j])
    ensures FirstStamp(msgs) == Some(StampOf(msgs[k]))
  {
    if k > 0 {
      var rest := msgs[1..];
      assert rest[k - 1] == msgs[k];
      assert forall j :: 0 <= j < k - 1 ==> rest[j] == msgs[j + 1];
      FirstStampIs(rest, k - 1);
    }
  }

  /** No timestamp is found exactly when no record of either kind is present. */
  lemma {:induction false} FirstStampNone(msgs: seq<Cmsg>)
    ensures FirstStamp(msgs).None? <==> forall i :: 0 <= i < |msgs| ==> !IsKernelStamp(msgs[i])
  {
    if |msgs| > 0 {
      var rest := msgs[1..];
      FirstStampNone(rest);
      assert forall i :: 1 <= i < |msgs| ==> msgs[i] == rest[i - 1];
    }
  }

  /** The receive timestamp T4 for a datagram `d`: the kernel's, else the clock's, else (0, 0). */
  function ReceiveT4(d: Inbound, readings: seq<Option<Timespec>>): NtpTimestamp
    requires d.Datagram?
  {
    if FirstStamp(d.control).Some? then FirstStamp(d.control).value
    else if ReadAt(readings, 0).Some? then ReadAt(readings, 0).value
    else NtpTimestamp(0, 0)
  }

  /** How many clock reads receiving `d` costs: one fallback read when no kernel timestamp came. */
  function T4Reads(d: Inbound): nat
  {
    if d.Datagram? && FirstStamp(d.control).None? then 1 else 0
  }

  /**
   * recv_with_timestamp (POSIX): receives into `buffer`, takes T4 from the
   * first kernel-timestamp record, and reads the clock only when there is
   * none. A receive error returns -1 with its error number and reads
   * nothing; T4 stays (0, 0), the caller's initial value, when the clock
   * read fails.
   */
  method RecvWithTimestamp(sock: UdpSocket, clock: Clock, buffer: array<u8>)
    returns (n: int, from: SockAddr, t4: NtpTimestamp, errno: int)
    modifies sock, clock, buffer
    ensures sock.recvCalls == old(sock.recvCalls) + 1
    ensures sock.inbound == if |old(sock.inbound)| == 0 then [] else old(sock.inbound)[1..]
    ensures sock.sendOutcomes == old(sock.sendOutcomes) && sock.transmissions == old(sock.transmissions)
    ensures clock.readings == Drop(old(clock.readings), T4Reads(old(sock.NextInbound())))
    ensures old(sock.NextInbound()).Failure? ==>
      n == -1 && errno == old(sock.NextInbound()).errno && buffer[..] == old(buffer[..])
    ensures old(sock.NextInbound()).Datagram? ==>
      var d := old(sock.NextInbound());
      var k := if |d.payload| < buffer.Length then |d.payload| else buffer.Length;
      && n == k && from == d.from
      && buffer[..] == Splice(old(buffer[..]), 0, d.payload[..k])
      && t4 == ReceiveT4(d, old(clock.readings))
  {
    t4 := NtpTimestamp(0, 0);
    var control;
    n, from, control, errno := sock.RecvMsg(buffer);
    if n < 0 {
      return -1, from, t4, errno;
    }
    var found := false;
    var i := 0;
    while i < |control|
      invariant 0 <= i <= |control|
      invariant FirstStamp(control[i..]) == FirstStamp(control)
      invariant t4 == NtpTimestamp(0, 0)
    {
      var c := control[i];
      assert control[i..][0] == c && control[i..][1..] == control[i + 1..];
      if c.level == SOL_SOCKET && c.kind == SCM_TIMESTAMPNS {
        t4 := TimespecToNtp(TimespecPayload(c));
        found := true;
        break;
      }
      if c.level == SOL_SOCKET && c.kind == SCM_TIMESTAMP {
        t4 := TimevalToNtp(TimevalPayload(c));
        found := true;
        break;
      }
      i := i + 1;
    }
    assert found ==> t4 == FirstStamp(control).value;
    assert !found ==> FirstStamp(control).None?;
    if !found {
      var now := clock.GetNtpTimestamp();
      if now.Some? {
        t4 := now.value;
      }
    }
  }

  // ---------------------------------------------------------------------------
  // Statistics
  // ---------------------------------------------------------------------------

  /** What the delay arithmetic yields for one reply: the RTT and whether a delay came out negative. */
  datatype Delay = Delay(rtt: real, negative: bool)

  /**
   * The floating-point computation of receive_and_process_packet from
   * T1, T2, T3 and T4: the RTT (forward plus backward delay) and the
   * anomaly test (T1 > T4, or a negative forward or backward delay).
   */
  type DelayModel = (NtpTimestamp, NtpTimestamp, NtpTimestamp, NtpTimestamp) -> Delay

  /** `struct sender_stats` together with the sticky `g_negative_delay_seen` flag. */
  datatype Stats = Stats(sent: u32, received: u32, timeouts: u32,
                         minRtt: real, maxRtt: real, sumRtt: real, negativeDelaySeen: bool)

  /** The initial `g_stats` = {0, 0, 0, 1e9, 0, 0} and a clear flag. */
  const INITIAL_STATS: Stats := Stats(0, 0, 0, 1000000000.0, 0.0, 0.0, false)

  /** What changes the statistics: a probe handed to the network, a receive timeout, an accepted reply. */
  datatype Event = ProbeSent | TimedOut | Replied(delay: Delay)

  /** The effect of one event: a 32-bit count, and for a reply the RTT sum, strict min/max and the flag. */
  function Count(s: Stats, e: Event): Stats
  {
    match e
    case ProbeSent => s.(sent := Wrap32(s.sent + 1))
    case TimedOut => s.(timeouts := Wrap32(s.timeouts + 1))
    case Replied(d) =>
      s.(received := Wrap32(s.received + 1), sumRtt := s.sumRtt + d.rtt,
         minRtt := if d.rtt < s.minRtt then d.rtt else s.minRtt,
         maxRtt := if d.rtt > s.maxRtt then d.rtt else s.maxRtt,
         negativeDelaySeen := s.negativeDelaySeen || d.negative)
  }

  /** The statistics after a run of events. */
  function Tally(s: Stats, evs: seq<Event>): Stats
  {
    if |evs| == 0 then s else Count(Tally(s, evs[..|evs| - 1]), evs[|evs| - 1])
  }

  function NumSent(evs: seq<Event>): nat
  {
    if |evs| == 0 then 0 else NumSent(evs[..|evs| - 1]) + if evs[|evs| - 1].ProbeSent? then 1 else 0
  }

  function NumTimedOut(evs: seq<Event>): nat
  {
    if |evs| == 0 then 0 else NumTimedOut(evs[..|evs| - 1]) + if evs[|evs| - 1].TimedOut? then 1 else 0
  }

  /** The RTTs of the accepted replies, in order. */
  function Rtts(evs: seq<Event>): seq<real>
  {
    if |evs| == 0 then []
    else Rtts(evs[..|evs| - 1]) + if evs[|evs| - 1].Replied? then [evs[|evs| - 1].delay.rtt] else []
  }

  function Sum(xs: seq<real>): real
  {
    if |xs| == 0 then 0.0 else Sum(xs[..|xs| - 1]) + xs[|xs| - 1]
  }

  /** Whether some accepted reply raised the negative-delay flag. */
  predicate AnyNegative(evs: seq<Event>)
  {
    |evs| > 0 && (AnyNegative(evs[..|evs| - 1]) || (evs[|evs| - 1].Replied? && evs[|evs| - 1].delay.negative))
  }

  /** The sent counter counts the probes handed to the network, modulo 2^32. */
  lemma {:induction false} TallySent(s: Stats, evs: seq<Event>)
    ensures Tally(s, evs).sent == Wrap32(s.sent + NumSent(evs))
  {
    if |evs| > 0 {
      var init := evs[..|evs| - 1];
      var e := evs[|evs| - 1];
      TallySent(s, init);
      var t0 := Tally(s, init);
      var x := if e.ProbeSent? then 1 else 0;
      assert Tally(s, evs).sent == Wrap32(t0.sent + x);
      CountOn(t0.sent, s.sent, NumSent(init), x, NumSent(evs));
    }
  }

  /** The timeout counter counts the receive timeouts, modulo 2^32. */
  lemma {:induction false} TallyTimeouts(s: Stats, evs: seq<Event>)
    ensures Tally(s, evs).timeouts == Wrap32(s.timeouts + NumTimedOut(evs))
  {
    if |evs| > 0 {
      var init := evs[..|evs| - 1];
      var e := evs[|evs| - 1];
      TallyTimeouts(s, init);
      var t0 := Tally(s, init);
      var x := if e.TimedOut? then 1 else 0;
      assert Tally(s, evs).timeouts == Wrap32(t0.timeouts + x);
      CountOn(t0.timeouts, s.timeouts, NumTimedOut(init), x, NumTimedOut(evs));
    }
  }

  /** The received counter counts the accepted replies, modulo 2^32. */
  lemma {:induction false} TallyReceived(s: Stats, evs: seq<Event>)
    ensures Tally(s, evs).received == Wrap32(s.received + |Rtts(evs)|)
  {
    if |evs| > 0 {
      var init := evs[..|evs| - 1];
      var e := evs[|evs| - 1];
      TallyReceived(s, init);
      var t0 := Tally(s, init);
      var x := if e.Replied? then 1 else 0;
      assert Tally(s, evs).received == Wrap32(t0.received + x);
      CountOn(t0.received, s.received, |Rtts(init)|, x, |Rtts(evs)|);
    }
  }

  /** Counting `x` more on from a counter that stands at `base + n` modulo 2^32. */
  lemma {:induction false} CountOn(v: u32, base: int, n: nat, x: nat, m: nat)
    requires v == Wrap32(base + n) && m == n + x
    ensures Wrap32(v + x) == Wrap32(base + m)
  {
    Wrap32Add(base + n, x);
  }

  /** The RTT sum adds up the RTTs of the accepted replies, and the flag is sticky. */
  lemma {:induction false} TallySum(s: Stats, evs: seq<Event>)
    ensures Tally(s, evs).sumRtt == s.sumRtt + Sum(Rtts(evs))
    ensures Tally(s, evs).negativeDelaySeen <==> s.negativeDelaySeen || AnyNegative(evs)
  {
    if |evs| > 0 {
      var init := evs[..|evs| - 1];
      var e := evs[|evs| - 1];
      TallySum(s, init);
      assert Tally(s, evs) == Count(Tally(s, init), e);
      var r := Rtts(evs);
      if e.Replied? {
        assert r[..|r| - 1] == Rtts(init);
      } else {
        assert r == Rtts(init) + [] == Rtts(init);
      }
    }
  }

  /** The minimum is the starting value or an RTT seen, and bounds both. */
  lemma {:induction false} TallyMin(s: Stats, evs: seq<Event>)
    ensures Tally(s, evs).minRtt <= s.minRtt
    ensures forall i :: 0 <= i < |Rtts(evs)| ==> Tally(s, evs).minRtt <= Rtts(evs)[i]
    ensures Tally(s, evs).minRtt == s.minRtt || exists i :: 0 <= i < |Rtts(evs)| && Tally(s, evs).minRtt == Rtts(evs)[i]
  {
    if |evs| > 0 {
      var init := evs[..|evs| - 1];
      TallyMin(s, init);
      var r0, r := Rtts(init), Rtts(evs);
      var m0, m := Tally(s, init).minRtt, Tally(s, evs).minRtt;
      var e := evs[|evs| - 1];
      assert Tally(s, evs) == Count(Tally(s, init), e);
      if e.Replied? {
        assert r == r0 + [e.delay.rtt];
        assert m <= m0 && m <= e.delay.rtt && (m == m0 || m == e.delay.rtt);
        forall i | 0 <= i < |r|
          ensures m <= r[i]
        {
          if i < |r0| {
            assert r[i] == r0[i];
          }
        }
        if m != s.minRtt {
          if m == e.delay.rtt {
            assert m == r[|r0|];
          } else {
            var j :| 0 <= j < |r0| && m0 == r0[j];
            assert m == r[j];
          }
        }
      } else {
        assert r == r0 + [] == r0;
        assert m == m0;
      }
    }
  }

  /** The maximum is the starting value or an RTT seen, and bounds both. */
  lemma {:induction false} TallyMax(s: Stats, evs: seq<Event>)
    ensures Tally(s, evs).maxRtt >= s.maxRtt
    ensures forall i :: 0 <= i < |Rtts(evs)| ==> Tally(s, evs).maxRtt >= Rtts(evs)[i]
    ensures Tally(s, evs).maxRtt == s.maxRtt || exists i :: 0 <= i < |Rtts(evs)| && Tally(s, evs).maxRtt == Rtts(evs)[i]
  {
    if |evs| > 0 {
      var init := evs[..|evs| - 1];
      TallyMax(s, init);
      var r0, r := Rtts(init), Rtts(evs);
      var m0, m := Tally(s, init).maxRtt, Tally(s, evs).maxRtt;
      var e := evs[|evs| - 1];
      assert Tally(s, evs) == Count(Tally(s, init), e);
      if e.Replied? {
        assert r == r0 + [e.delay.rtt];
        assert m >= m0 && m >= e.delay.rtt && (m == m0 || m == e.delay.rtt);
        forall i | 0 <= i < |r|
          ensures m >= r[i]
        {
          if i < |r0| {
            assert r[i] == r0[i];
          }
        }
        if m != s.maxRtt {
          if m == e.delay.rtt {
            assert m == r[|r0|];
          } else {
            var j :| 0 <= j < |r0| && m0 == r0[j];
            assert m == r[j];
          }
        }
      } else {
        assert r == r0 + [] == r0;
        assert m == m0;
      }
    }
  }

  /**
   * Events whose every receive outcome directly follows a probe: the loop
   * receives only after a successful send, and once per send.
   */
  predicate Paired(evs: seq<Event>)
  {
    if |evs| == 0 then true
    else if evs[|evs| - 1].ProbeSent? then Paired(evs[..|evs| - 1])
    else |evs| >= 2 && evs[|evs| - 2].ProbeSent? && Paired(evs[..|evs| - 2])
  }

  /** Replies and timeouts together never outnumber the probes sent. */
  lemma {:induction false} PairedBound(evs: seq<Event>)
    requires Paired(evs)
    ensures NumTimedOut(evs) + |Rtts(evs)| <= NumSent(evs)
  {
    if |evs| > 0 {
      var init := evs[..|evs| - 1];
      if evs[|evs| - 1].ProbeSent? {
        PairedBound(init);
        assert Rtts(evs) == Rtts(init) + [];
      } else {
        var init2 := evs[..|evs| - 2];
        assert init[..|init| - 1] == init2;
        PairedBound(init2);
        assert Rtts(init) == Rtts(init2) + [];
      }
    }
  }

  lemma {:induction false} PairedConcat(xs: seq<Event>, ys: seq<Event>)
    requires Paired(xs) && Paired(ys)
    ensures Paired(xs + ys)
    decreases |ys|
  {
    var zs := xs + ys;
    if |ys| == 0 {
      assert zs == xs;
    } else if ys[|ys| - 1].ProbeSent? {
      var ys1 := ys[..|ys| - 1];
      assert zs[..|zs| - 1] == xs + ys1;
      assert zs[|zs| - 1] == ys[|ys| - 1];
      PairedConcat(xs, ys1);
    } else {
      var ys2 := ys[..|ys| - 2];
      assert zs[..|zs| - 2] == xs + ys2;
      assert zs[|zs| - 1] == ys[|ys| - 1] && zs[|zs| - 2] == ys[|ys| - 2];
      PairedConcat(xs, ys2);
    }
  }

  lemma {:induction false} TallyConcat(s: Stats, xs: seq<Event>, ys: seq<Event>)
    ensures Tally(s, xs + ys) == Tally(Tally(s, xs), ys)
    ensures NumSent(xs + ys) == NumSent(xs) + NumSent(ys)
  {
    if |ys| > 0 {
      var zs := xs + ys;
      assert zs[..|zs| - 1] == xs + ys[..|ys| - 1];
      TallyConcat(s, xs, ys[..|ys| - 1]);
    } else {
      assert xs + ys == xs;
    }
  }

  // ---------------------------------------------------------------------------
  // receive_and_process_packet
  // ---------------------------------------------------------------------------

  /**
   * The reply check: at least the 44 base bytes, and the sender sequence
   * number at bytes 24..27 equal to the probe's bytes 0..3, compared as
   * stored on the wire.
   */
  predicate Accepts(tx: seq<u8>, reply: seq<u8>)
    requires |tx| == STAMP_BASE_PACKET_SIZE
  {
    |reply| >= STAMP_BASE_PACKET_SIZE && reply[24..28] == tx[..4]
  }

  /** For a probe, the wire comparison is the comparison of sequence numbers, in both directions. */
  lemma {:induction false} AcceptsProbe(seqNum: u32, t1: NtpTimestamp, reply: seq<u8>)
    ensures Accepts(Probe(seqNum, t1), reply) <==> |reply| >= STAMP_BASE_PACKET_SIZE && U32At(reply, 24) == seqNum
    ensures Accepts(Probe(seqNum, t1), reply) ==> ValidateStampPacket(reply, |reply|) == 1
  {
    ProbeLayout(seqNum, t1);
    if |reply| >= STAMP_BASE_PACKET_SIZE {
      BE32U32At(reply, 24);
      if U32At(reply, 24) == seqNum {
        assert reply[24..28] == BE32(seqNum);
      }
      if reply[24..28] == BE32(seqNum) {
        U32AtBE32(seqNum, reply, 24);
      }
    }
  }

  /**
   * What a received datagram `reply` adds to the statistics after the probe
   * `tx`: an accepted reply with the delays of T1 (the probe's), T2 and T3
   * (the reply's receive and transmit timestamps) and T4; nothing otherwise.
   */
  function Verdict(tx: seq<u8>, reply: seq<u8>, t4: NtpTimestamp, delay: DelayModel): (evs: seq<Event>)
    requires |tx| == STAMP_BASE_PACKET_SIZE
    ensures |evs| <= 1 && (|evs| == 1 <==> Accepts(tx, reply)) && (|evs| == 1 ==> evs[0].Replied?)
  {
    if !Accepts(tx, reply) then []
    else
      var rx := reply[..STAMP_BASE_PACKET_SIZE];
      [Replied(delay(NtpAt(tx, 4), NtpAt(rx, 16), NtpAt(rx, 4), t4))]
  }

  /** What processing the receive result `d` adds to the statistics, after the probe `tx`. */
  function Outcome(tx: seq<u8>, d: Inbound, readings: seq<Option<Timespec>>, delay: DelayModel): (evs: seq<Event>)
    requires |tx| == STAMP_BASE_PACKET_SIZE
    ensures |evs| <= 1 && (|evs| == 1 ==> !evs[0].ProbeSent?)
    ensures (|evs| == 1 && evs[0].TimedOut?) <==> d.Failure? && (d.errno == EAGAIN || d.errno == EWOULDBLOCK)
    ensures (|evs| == 1 && evs[0].Replied?) <==> d.Datagram? && Accepts(tx, d.payload)
  {
    if d.Failure? then TimeoutEvents(d.errno)
    else Verdict(tx, d.payload, ReceiveT4(d, readings), delay)
  }

  /** A receive error counts as a timeout only for EAGAIN or EWOULDBLOCK. */
  function TimeoutEvents(errno: int): (evs: seq<Event>)
  {
    if errno == EAGAIN || errno == EWOULDBLOCK then [TimedOut] else []
  }

  /** Tallying no event or one event. */
  lemma {:induction false} TallyShort(s: Stats, e: Event)
    ensures Tally(s, []) == s && Tally(s, [e]) == Count(s, e)
  {
    assert [e][..0] == [];
  }

  /** A probe followed by what its receive outcome adds is a paired run of events. */
  lemma {:induction false} ProbeThenOutcome(tx: seq<u8>, d: Inbound, readings: seq<Option<Timespec>>, delay: DelayModel)
    requires |tx| == STAMP_BASE_PACKET_SIZE
    ensures Paired([ProbeSent] + Outcome(tx, d, readings, delay))
    ensures NumSent([ProbeSent] + Outcome(tx, d, readings, delay)) == 1
  {
    var evs := [ProbeSent] + Outcome(tx, d, readings, delay);
    assert evs[..1] == [ProbeSent];
    assert [ProbeSent][..0] == [];
    if |evs| == 2 {
      assert evs[..0] == [];
    }
  }

  /** The bytes of a received datagram of at least 44 bytes that are read back: its first 44. */
  lemma {:induction false} ReceivedHead(b: seq<u8>, p: seq<u8>, k: nat)
    requires k == (if |p| < |b| then |p| else |b|) && |b| >= STAMP_BASE_PACKET_SIZE
    ensures (k >= STAMP_BASE_PACKET_SIZE) == (|p| >= STAMP_BASE_PACKET_SIZE)
    ensures k >= STAMP_BASE_PACKET_SIZE ==> Splice(b, 0, p[..k])[..STAMP_BASE_PACKET_SIZE] == p[..STAMP_BASE_PACKET_SIZE]
  {
  }

  // ---------------------------------------------------------------------------
  // The main loop
  // ---------------------------------------------------------------------------

  /**
   * What `i` rounds of the loop have done: the log grew by `probes`, one
   * receive was made per delivered probe, the statistics are the tally of
   * `evs`, paired and with one ProbeSent per delivered probe, and the
   * probes carry the sequence numbers of strictly increasing rounds.
   */
  ghost predicate Progress(log: seq<Transmission>, recvCalls: nat, stats: Stats,
                           log0: seq<Transmission>, recv0: nat, s0: Stats,
                           evs: seq<Event>, probes: seq<Transmission>, iters: seq<nat>, i: nat)
  {
    && Logged(log, recvCalls, stats, log0, recv0, s0, evs, probes)
    && Paired(evs) && NumSent(evs) == Delivered(probes) && Numbered(probes, iters, i)
  }

  /** The log, the receive count and the statistics since the start (`log0`, `recv0`, `s0`). */
  ghost predicate Logged(log: seq<Transmission>, recvCalls: nat, stats: Stats,
                         log0: seq<Transmission>, recv0: nat, s0: Stats,
                         evs: seq<Event>, probes: seq<Transmission>)
  {
    log == log0 + probes && recvCalls == recv0 + Delivered(probes) && stats == Tally(s0, evs)
  }

  /** The probes were sent in the rounds `iters`, strictly increasing and before round `i`, numbered modulo 2^32. */
  ghost predicate Numbered(probes: seq<Transmission>, iters: seq<nat>, i: nat)
  {
    && |iters| == |probes|
    && (forall j :: 0 <= j < |probes| ==> iters[j] < i && ProbeShape(probes[j].data, Wrap32(iters[j])))
    && (forall j, k :: 0 <= j < k < |iters| ==> iters[j] < iters[k])
  }

  /** Appending a round's sends, receives and events keeps the log, the receive count and the statistics. */
  lemma {:induction false} LoggedAfter(log: seq<Transmission>, recvCalls: nat, stats: Stats,
                                       log0: seq<Transmission>, recv0: nat, s0: Stats,
                                       evs: seq<Event>, probes: seq<Transmission>,
                                       e: seq<Event>, ps: seq<Transmission>,
                                       log': seq<Transmission>, recvCalls': nat, stats': Stats)
    requires Logged(log, recvCalls, stats, log0, recv0, s0, evs, probes)
    requires log' == log + ps && recvCalls' == recvCalls + Delivered(ps) && stats' == Tally(stats, e)
    ensures Logged(log', recvCalls', stats', log0, recv0, s0, evs + e, probes + ps)
  {
    CountConcat(probes, ps);
    TallyConcat(s0, evs, e);
    assert log' == log0 + (probes + ps);
  }

  /** Before the first round nothing has been sent, received or tallied, and the trace is empty. */
  lemma {:induction false} LoopStart(log: seq<Transmission>, recvCalls: nat, stats: Stats,
                                     sc: Script, servaddr: SockAddr, delay: DelayModel)
    ensures Logged(log, recvCalls, stats, log, recvCalls, stats, [], [])
    ensures Trace([], [], [], servaddr, sc) == Rounds(sc, servaddr, 0, delay)
  {
    assert log + [] == log;
  }

  /** After `n` rounds that followed their trace, the loop has made the progress the trace promises. */
  lemma {:induction false} LoopDone(log: seq<Transmission>, recvCalls: nat, stats: Stats,
                                    log0: seq<Transmission>, recv0: nat, s0: Stats,
                                    sc: Script, servaddr: SockAddr, n: nat, delay: DelayModel, t: Trace)
    requires Logged(log, recvCalls, stats, log0, recv0, s0, t.evs, t.probes)
    requires t == Rounds(sc, servaddr, n, delay)
    ensures Progress(log, recvCalls, stats, log0, recv0, s0, t.evs, t.probes, t.iters, n)
  {
    RoundsSound(sc, servaddr, n, delay);
  }

  /** Round `i` sending at most its own probe keeps the numbering. */
  lemma {:induction false} NumberedAfter(probes: seq<Transmission>, iters: seq<nat>, i: nat, ps: seq<Transmission>)
    requires Numbered(probes, iters, i)
    requires |ps| <= 1 && forall j :: 0 <= j < |ps| ==> ProbeShape(ps[j].data, Wrap32(i))
    ensures Numbered(probes + ps, iters + (if |ps| == 1 then [i] else []), i + 1)
  {
    var iters' := iters + (if |ps| == 1 then [i] else []);
    var probes' := probes + ps;
    forall j | 0 <= j < |probes'|
      ensures iters'[j] < i + 1 && ProbeShape(probes'[j].data, Wrap32(iters'[j]))
    {
      if j < |probes| {
        assert iters'[j] == iters[j] && probes'[j] == probes[j];
      } else {
        assert iters'[j] == i && probes'[j] == ps[0];
      }
    }
    forall j, k | 0 <= j < k < |iters'|
      ensures iters'[j] < iters'[k]
    {
      if k < |iters| {
        assert iters'[j] == iters[j] && iters'[k] == iters[k];
      } else {
        assert iters'[j] == iters[j] < i == iters'[k];
      }
    }
  }

  /** What one round does: its sends, its events, the address it leaves and the scripts left after it. */
  datatype RoundEffect = RoundEffect(probes: seq<Transmission>, evs: seq<Event>, servaddr: SockAddr, rest: Script)

  /**
   * Round `seqNum` over the scripts `sc`, sending to `servaddr`: T1 is the
   * next clock reading, and without it nothing is sent; otherwise the probe
   * is handed to sendto, and only when that succeeds is one datagram
   * received, with a T4 read when it lacks a kernel timestamp.
   */
  function RoundOn(sc: Script, seqNum: u32, servaddr: SockAddr, delay: DelayModel): RoundEffect
  {
    var t1 := ReadAt(sc.readings, 0);
    var rest := Drop(sc.readings, 1);
    if t1.None? then RoundEffect([], [], servaddr, sc.(readings := rest))
    else
      var tx := Probe(seqNum, t1.value);
      var ok := sc.NextSendSucceeds();
      var outcomes := Tail(sc.sendOutcomes);
      if !ok then RoundEffect([Transmission(tx, servaddr, false)], [], servaddr, Script(rest, outcomes, sc.inbound))
      else
        var d := sc.NextInbound();
        RoundEffect([Transmission(tx, servaddr, true)], [ProbeSent] + Outcome(tx, d, rest, delay),
                    if d.Datagram? then d.from else servaddr,
                    Script(Drop(rest, T4Reads(d)), outcomes, Tail(sc.inbound)))
  }

  /** What the first rounds have done: sends, events, the rounds that sent, the address and the scripts left. */
  datatype Trace = Trace(probes: seq<Transmission>, evs: seq<Event>, iters: seq<nat>, servaddr: SockAddr, rest: Script)

  /** A trace followed by round `i`, numbered `i` modulo 2^32 and run on what the trace left. */
  function Extend(t: Trace, i: nat, delay: DelayModel): Trace
  {
    var r := RoundOn(t.rest, Wrap32(i), t.servaddr, delay);
    Trace(t.probes + r.probes, t.evs + r.evs, t.iters + (if |r.probes| == 1 then [i] else []), r.servaddr, r.rest)
  }

  /** The first `n` rounds over the scripts `sc`, starting with the address `servaddr`. */
  function Rounds(sc: Script, servaddr: SockAddr, n: nat, delay: DelayModel): Trace
    decreases n, 0
  {
    if n == 0 then Trace([], [], [], servaddr, sc) else Through(sc, servaddr, n - 1, delay)
  }

  /** The rounds up to and including round `i`. */
  function Through(sc: Script, servaddr: SockAddr, i: nat, delay: DelayModel): Trace
    decreases i, 1
  {
    Extend(Rounds(sc, servaddr, i, delay), i, delay)
  }

  /**
   * A round sends its own probe exactly when T1 is read, that probe is
   * delivered exactly when sendto succeeds, and its events are paired with
   * one ProbeSent per delivered probe.
   */
  lemma {:induction false} RoundOnSound(sc: Script, seqNum: u32, servaddr: SockAddr, delay: DelayModel)
    ensures var r := RoundOn(sc, seqNum, servaddr, delay);
      && |r.probes| <= 1 && (|r.probes| == 1 <==> ReadAt(sc.readings, 0).Some?)
      && (forall j :: 0 <= j < |r.probes| ==>
            ProbeShape(r.probes[j].data, seqNum) && r.probes[j].to == servaddr
            && r.probes[j].delivered == sc.NextSendSucceeds())
      && Paired(r.evs) && NumSent(r.evs) == Delivered(r.probes)
  {
    var t1 := ReadAt(sc.readings, 0);
    var r := RoundOn(sc, seqNum, servaddr, delay);
    if t1.Some? {
      ProbeShapeOf(seqNum, t1.value, r.probes[0].data, seqNum);
      CountOne(r.probes[0]);
      if sc.NextSendSucceeds() {
        ProbeThenOutcome(Probe(seqNum, t1.value), sc.NextInbound(), Drop(sc.readings, 1), delay);
      } else {
        assert Paired(r.evs);
      }
    } else {
      assert Paired(r.evs);
    }
  }

  /** Round `n` extends the trace of the `n` rounds before it. */
  lemma {:induction false} RoundsNext(sc: Script, servaddr: SockAddr, n: nat, delay: DelayModel)
    ensures Rounds(sc, servaddr, n + 1, delay) == Extend(Rounds(sc, servaddr, n, delay), n, delay)
  {
    assert Rounds(sc, servaddr, n + 1, delay) == Through(sc, servaddr, n, delay);
  }

  /** What the loop keeps over the rounds a trace covers. */
  ghost predicate Sound(t: Trace, n: nat)
  {
    Numbered(t.probes, t.iters, n) && Paired(t.evs) && NumSent(t.evs) == Delivered(t.probes)
  }

  /** Appending round `n - 1`, when it sends at most its own probe and pairs its events, keeps a trace sound. */
  lemma {:induction false} SoundAfter(t: Trace, r: RoundEffect, n: nat)
    requires n > 0 && Sound(t, n - 1)
    requires |r.probes| <= 1 && forall j :: 0 <= j < |r.probes| ==> ProbeShape(r.probes[j].data, Wrap32(n - 1))
    requires Paired(r.evs) && NumSent(r.evs) == Delivered(r.probes)
    ensures Sound(Trace(t.probes + r.probes, t.evs + r.evs, t.iters + (if |r.probes| == 1 then [n - 1] else []),
                        r.servaddr, r.rest), n)
  {
    NumberedAfter(t.probes, t.iters, n - 1, r.probes);
    PairedConcat(t.evs, r.evs);
    TallyConcat(INITIAL_STATS, t.evs, r.evs);
    CountConcat(t.probes, r.probes);
  }

  /** Round `n - 1` keeps a trace of the rounds before it sound. */
  lemma {:induction false} ExtendSound(t: Trace, n: nat, delay: DelayModel)
    requires n > 0 && Sound(t, n - 1)
    ensures Sound(Extend(t, n - 1, delay), n)
  {
    var r := RoundOn(t.rest, Wrap32(n - 1), t.servaddr, delay);
    RoundOnSound(t.rest, Wrap32(n - 1), t.servaddr, delay);
    SoundAfter(t, r, n);
  }

  /**
   * However the scripts go, the first `n` rounds send probes numbered by
   * strictly increasing rounds before `n`, and their events are paired
   * with one ProbeSent per delivered probe.
   */
  lemma {:induction false} RoundsSound(sc: Script, servaddr: SockAddr, n: nat, delay: DelayModel)
    ensures Sound(Rounds(sc, servaddr, n, delay), n)
  {
    if n == 0 {
      assert Paired([]);
    } else {
      RoundsSound(sc, servaddr, n - 1, delay);
      ExtendSound(Rounds(sc, servaddr, n - 1, delay), n, delay);
      assert Rounds(sc, servaddr, n, delay) == Through(sc, servaddr, n - 1, delay);
    }
  }

  class SenderStats {
    var sent: u32
    var received: u32
    var timeouts: u32
    var minRtt: real
    var maxRtt: real
    var sumRtt: real
    var negativeDelaySeen: bool

    constructor()
      ensures View() == INITIAL_STATS
    {
      sent, received, timeouts := 0, 0, 0;
      minRtt, maxRtt, sumRtt := 1000000000.0, 0.0, 0.0;
      negativeDelaySeen := false;
    }

    function View(): Stats
      reads this
    {
      Stats(sent, received, timeouts, minRtt, maxRtt, sumRtt, negativeDelaySeen)
    }

    /**
     * send_stamp_packet: zero the structure, write seq and the error
     * estimate, read T1 (on failure return -1 with T1 left zero, sending
     * nothing), write T1 and send the 44 bytes; only a successful send
     * counts.
     */
    method SendStampPacket(sock: UdpSocket, clock: Clock, seqNum: u32, servaddr: SockAddr, tx: array<u8>)
      returns (rc: int)
      requires tx.Length == STAMP_BASE_PACKET_SIZE
      modifies this, sock, clock, tx
      ensures clock.readings == old(clock.Rest())
      ensures sock.inbound == old(sock.inbound) && sock.recvCalls == old(sock.recvCalls)
      ensures old(clock.Next()).None? ==>
        && rc == -1 && tx[..] == Probe(seqNum, NtpTimestamp(0, 0)) && View() == old(View())
        && sock.transmissions == old(sock.transmissions) && sock.sendOutcomes == old(sock.sendOutcomes)
      ensures old(clock.Next()).Some? ==>
        var ok := old(sock.NextSendSucceeds());
        && tx[..] == Probe(seqNum, old(clock.Next()).value)
        && sock.transmissions == old(sock.transmissions) + [Transmission(tx[..], servaddr, ok)]
        && sock.sendOutcomes == (if |old(sock.sendOutcomes)| == 0 then [] else old(sock.sendOutcomes)[1..])
        && rc == (if ok then 0 else -1)
        && View() == if ok then Count(old(View()), ProbeSent) else old(View())
    {
      Store(tx, 0, Zeros(STAMP_BASE_PACKET_SIZE));
      assert tx[..] == Zeros(STAMP_BASE_PACKET_SIZE);
      Store(tx, 0, BE32(seqNum));
      Store(tx, 12, BE16(ERROR_ESTIMATE_DEFAULT));
      ProbeUnstamped(seqNum, tx[..]);
      var t1 := clock.GetNtpTimestamp();
      if t1.None? {
        return -1;
      }
      Store(tx, 4, EncodeNtp(t1.value));
      ProbeStamped(seqNum, t1.value);
      var r := sock.SendTo(tx[..], servaddr);
      if r < 0 {
        return -1;
      }
      sent := Wrap32(sent + 1);
      rc := 0;
    }

    /** The statistics update for an accepted reply. */
    method Record(d: Delay)
      modifies this
      ensures View() == Count(old(View()), Replied(d))
    {
      if d.negative {
        negativeDelaySeen := true;
      }
      received := Wrap32(received + 1);
      sumRtt := sumRtt + d.rtt;
      if d.rtt < minRtt {
        minRtt := d.rtt;
      }
      if d.rtt > maxRtt {
        maxRtt := d.rtt;
      }
    }

    /**
     * receive_and_process_packet: a receive error counts a timeout only
     * for EAGAIN/EWOULDBLOCK; a reply under 44 bytes or with another
     * sender sequence number is dropped; an accepted reply is counted with
     * its RTT, even when it raises the negative-delay flag. recvmsg writes
     * the source of any datagram received into `servaddr`.
     */
    method ReceiveAndProcessPacket(sock: UdpSocket, clock: Clock, tx: array<u8>, servaddr: SockAddr, delay: DelayModel)
      returns (rc: int, servaddr': SockAddr)
      requires tx.Length == STAMP_BASE_PACKET_SIZE
      modifies this, sock, clock
      ensures sock.recvCalls == old(sock.recvCalls) + 1
      ensures sock.inbound == if |old(sock.inbound)| == 0 then [] else old(sock.inbound)[1..]
      ensures sock.sendOutcomes == old(sock.sendOutcomes) && sock.transmissions == old(sock.transmissions)
      ensures clock.readings == Drop(old(clock.readings), T4Reads(old(sock.NextInbound())))
      ensures servaddr' == if old(sock.NextInbound()).Datagram? then old(sock.NextInbound()).from else servaddr
      ensures var evs := Outcome(tx[..], old(sock.NextInbound()), old(clock.readings), delay);
        && View() == Tally(old(View()), evs)
        && rc == (if |evs| == 1 && evs[0].Replied? then 0 else -1)
    {
      ghost var d := sock.NextInbound();
      ghost var rs := clock.readings;
      var buffer := new u8[STAMP_MAX_PACKET_SIZE];
      ghost var b := buffer[..];
      var n, from, t4, errno := RecvWithTimestamp(sock, clock, buffer);
      if n < 0 {
        CountTimeout(errno);
        return -1, servaddr;
      }
      servaddr' := from;
      ReceivedHead(b, d.payload, n);
      rc := ProcessReply(buffer, n, tx, t4, delay, d.payload);
    }

    /**
     * One pass of the main loop: send the probe numbered `seqNum` and, only
     * when that succeeded, receive and process one reply. The events are
     * the probe, when delivered, followed by the receive outcome.
     */
    method Round(sock: UdpSocket, clock: Clock, tx: array<u8>, seqNum: u32, servaddr: SockAddr, delay: DelayModel)
      returns (servaddr': SockAddr, ghost evs: seq<Event>, ghost probes: seq<Transmission>)
      requires tx.Length == STAMP_BASE_PACKET_SIZE
      modifies this, sock, clock, tx
      ensures var r := RoundOn(old(ScriptOf(clock, sock)), seqNum, servaddr, delay);
        && probes == r.probes && evs == r.evs && servaddr' == r.servaddr && ScriptOf(clock, sock) == r.rest
      ensures |probes| <= 1 && forall j :: 0 <= j < |probes| ==> ProbeShape(probes[j].data, seqNum)
      ensures sock.transmissions == old(sock.transmissions) + probes
      ensures sock.recvCalls == old(sock.recvCalls) + Delivered(probes)
      ensures View() == Tally(old(View()), evs) && Paired(evs) && NumSent(evs) == Delivered(probes)
    {
      ghost var s0 := View();
      ghost var d := sock.NextInbound();
      ghost var rest := clock.Rest();
      ghost var ok := sock.NextSendSucceeds();
      ghost var t1 := clock.Next();
      TallyShort(s0, ProbeSent);
      var rc := SendStampPacket(sock, clock, seqNum, servaddr, tx);
      servaddr' := servaddr;
      probes := if t1.Some? then [Transmission(tx[..], servaddr, ok)] else [];
      if probes != [] {
        CountOne(probes[0]);
        ProbeShapeOf(seqNum, t1.value, tx[..], seqNum);
      }
      evs := [];
      if rc == 0 {
        ghost var out := Outcome(tx[..], d, rest, delay);
        var _, sa := ReceiveAndProcessPacket(sock, clock, tx, servaddr, delay);
        servaddr' := sa;
        evs := [ProbeSent] + out;
        TallyConcat(s0, [ProbeSent], out);
        ProbeThenOutcome(tx[..], d, rest, delay);
      }
    }

    /**
     * The main loop for `rounds` passes (it runs until a signal clears
     * g_running): `seq` starts at 0 and is incremented modulo 2^32 on every
     * pass, whether the send succeeded or not.
     */
    method Run(sock: UdpSocket, clock: Clock, servaddr: SockAddr, rounds: nat, delay: DelayModel)
      returns (nextSeq: u32, servaddr': SockAddr, ghost evs: seq<Event>, ghost probes: seq<Transmission>, ghost iters: seq<nat>)
      modifies this, sock, clock
      ensures nextSeq == Wrap32(rounds)
      ensures Trace(probes, evs, iters, servaddr', ScriptOf(clock, sock)) == Rounds(old(ScriptOf(clock, sock)), servaddr, rounds, delay)
      ensures Progress(sock.transmissions, sock.recvCalls, View(),
                       old(sock.transmissions), old(sock.recvCalls), old(View()), evs, probes, iters, rounds)
    {
      ghost var sc0 := ScriptOf(clock, sock);
      var tx := new u8[STAMP_BASE_PACKET_SIZE];
      var seqNum: u32 := 0;
      servaddr' := servaddr;
      evs, probes, iters := [], [], [];
      LoopStart(sock.transmissions, sock.recvCalls, View(), sc0, servaddr, delay);
      var i := 0;
      while i < rounds
        invariant 0 <= i <= rounds && seqNum == Wrap32(i)
        invariant Trace(probes, evs, iters, servaddr', ScriptOf(clock, sock)) == Rounds(sc0, servaddr, i, delay)
        invariant Logged(sock.transmissions, sock.recvCalls, View(),
                         old(sock.transmissions), old(sock.recvCalls), old(View()), evs, probes)
      {
        servaddr', evs, probes, iters := Step(sock, clock, tx, seqNum, servaddr', delay, i, sc0, servaddr,
                                              old(sock.transmissions), old(sock.recvCalls), old(View()), evs, probes, iters);
        Wrap32Add(i, 1);
        seqNum := Wrap32(seqNum + 1);
        i := i + 1;
      }
      LoopDone(sock.transmissions, sock.recvCalls, View(), old(sock.transmissions), old(sock.recvCalls), old(View()),
               sc0, servaddr, rounds, delay, Trace(probes, evs, iters, servaddr', ScriptOf(clock, sock)));
      nextSeq := seqNum;
    }

    /** Round `i` of the loop extends the log, the receive count, the statistics and the trace. */
    method Step(sock: UdpSocket, clock: Clock, tx: array<u8>, seqNum: u32, servaddr: SockAddr, delay: DelayModel,
                ghost i: nat, ghost sc0: Script, ghost servaddr0: SockAddr,
                ghost log0: seq<Transmission>, ghost recv0: nat, ghost s0: Stats,
                ghost evs: seq<Event>, ghost probes: seq<Transmission>, ghost iters: seq<nat>)
      returns (servaddr': SockAddr, ghost evs': seq<Event>, ghost probes': seq<Transmission>, ghost iters': seq<nat>)
      requires tx.Length == STAMP_BASE_PACKET_SIZE && seqNum == Wrap32(i)
      requires Logged(sock.transmissions, sock.recvCalls, View(), log0, recv0, s0, evs, probes)
      requires Trace(probes, evs, iters, servaddr, ScriptOf(clock, sock)) == Rounds(sc0, servaddr0, i, delay)
      modifies this, sock, clock, tx
      ensures Logged(sock.transmissions, sock.recvCalls, View(), log0, recv0, s0, evs', probes')
      ensures Trace(probes', evs', iters', servaddr', ScriptOf(clock, sock)) == Rounds(sc0, servaddr0, i + 1, delay)
    {
      ghost var log, rc, st := sock.transmissions, sock.recvCalls, View();
      ghost var e, ps;
      servaddr', e, ps := Round(sock, clock, tx, seqNum, servaddr, delay);
      LoggedAfter(log, rc, st, log0, recv0, s0, evs, probes, e, ps, sock.transmissions, sock.recvCalls, View());
      iters' := iters + (if |ps| == 1 then [i] else []);
      evs', probes' := evs + e, probes + ps;
      RoundsNext(sc0, servaddr0, i, delay);
    }

    /** The error branch of receive_and_process_packet: only a timeout is counted. */
    method CountTimeout(errno: int)
      modifies this
      ensures View() == Tally(old(View()), TimeoutEvents(errno))
    {
      TallyShort(View(), TimedOut);
      if errno == EAGAIN || errno == EWOULDBLOCK {
        timeouts := Wrap32(timeouts + 1);
      }
    }

    /**
     * The checks on a received datagram `p`, of which the buffer holds the
     * first `n` bytes: validation (at least 44 bytes), then the sender
     * sequence number; an accepted reply is recorded.
     */
    method ProcessReply(buffer: array<u8>, n: int, tx: array<u8>, t4: NtpTimestamp, delay: DelayModel, ghost p: seq<u8>)
      returns (rc: int)
      requires tx.Length == STAMP_BASE_PACKET_SIZE && buffer.Length >= STAMP_BASE_PACKET_SIZE
      requires (n >= STAMP_BASE_PACKET_SIZE) == (|p| >= STAMP_BASE_PACKET_SIZE)
      requires n >= STAMP_BASE_PACKET_SIZE ==> buffer[..STAMP_BASE_PACKET_SIZE] == p[..STAMP_BASE_PACKET_SIZE]
      modifies this
      ensures View() == Tally(old(View()), Verdict(tx[..], p, t4, delay))
      ensures rc == if Accepts(tx[..], p) then 0 else -1
    {
      TallyShort(View(), TimedOut);
      if ValidateStampPacket(buffer[..], n) == 0 {
        return -1;
      }
      // The size check that follows validation in the source can no longer fail.
      assert n >= STAMP_BASE_PACKET_SIZE;
      var rx := buffer[..STAMP_BASE_PACKET_SIZE];
      if rx[24..28] != tx[..4] {
        assert p[24..28] == rx[24..28];
        return -1;
      }
      var dl := delay(NtpAt(tx[..], 4), NtpAt(rx, 16), NtpAt(rx, 4), t4);
      TallyShort(View(), Replied(dl));
      Record(dl);
      rc := 0;
    }
  }
}
