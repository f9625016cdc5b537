/*
 * One STAMP exchange end to end: the probe the sender builds, the reply the
 * reflector makes of it, and what the sender's reply check and statistics
 * make of that reply. The two halves are modelled separately (sender.dfy
 * and reflector.dfy); these lemmas connect them.
 */
module Session {
  import opened Wire
  import opened NtpTime
  import opened Packets
  import opened ControlMessages
  import Reflector
  import Sender

  /**
   * The reflector's answer to a probe decodes to the reflector packet the
   * protocol describes: the probe's sequence number and timestamp echoed,
   * T2 as the receive and T3 as the transmit timestamp, the TTL, and zero
   * MBZ fields.
   */
  lemma {:induction false} ReplyToProbe(seqNum: u32, t1: NtpTimestamp, ttl: u8, t2: NtpTimestamp, t3: NtpTimestamp)
    ensures |Reflector.Reply(Sender.Probe(seqNum, t1), ttl, t2, t3)| == STAMP_BASE_PACKET_SIZE
    ensures DecodeReflector(Reflector.Reply(Sender.Probe(seqNum, t1), ttl, t2, t3))
      == Ok(ReflectorPacket(seqNum, t3, ERROR_ESTIMATE_DEFAULT, 0, t2, seqNum, t1, ERROR_ESTIMATE_DEFAULT, 0, ttl, [0, 0, 0]))
  {
    var p := Sender.Probe(seqNum, t1);
    Sender.ProbeLayout(seqNum, t1);
    assert Reflector.Padded(p) == p;
    Reflector.ReplyContents(p, ttl, t2, t3);
  }

  /**
   * The sender accepts the reflector's answer to its own probe, and counts
   * it with the delays of exactly T1, T2, T3 and T4.
   */
  lemma {:induction false} ReplyAccepted(seqNum: u32, t1: NtpTimestamp, ttl: u8, t2: NtpTimestamp, t3: NtpTimestamp,
                                         t4: NtpTimestamp, delay: Sender.DelayModel)
    ensures Sender.Accepts(Sender.Probe(seqNum, t1), Reflector.Reply(Sender.Probe(seqNum, t1), ttl, t2, t3))
    ensures Sender.Verdict(Sender.Probe(seqNum, t1), Reflector.Reply(Sender.Probe(seqNum, t1), ttl, t2, t3), t4, delay)
      == [Sender.Replied(delay(t1, t2, t3, t4))]
  {
    var tx := Sender.Probe(seqNum, t1);
    var r := Reflector.Reply(tx, ttl, t2, t3);
    ReplyToProbe(seqNum, t1, ttl, t2, t3);
    Sender.AcceptsProbe(seqNum, t1, r);
    Sender.ProbeLayout(seqNum, t1);
    assert r[..STAMP_BASE_PACKET_SIZE] == r;
  }

  /** A reply to a probe with another sequence number is rejected, whatever its timestamps. */
  lemma {:induction false} StaleReplyRejected(seqNum: u32, t1: NtpTimestamp, other: u32, t1': NtpTimestamp,
                                              ttl: u8, t2: NtpTimestamp, t3: NtpTimestamp)
    requires other != seqNum
    ensures !Sender.Accepts(Sender.Probe(seqNum, t1), Reflector.Reply(Sender.Probe(other, t1'), ttl, t2, t3))
  {
    var r := Reflector.Reply(Sender.Probe(other, t1'), ttl, t2, t3);
    ReplyToProbe(other, t1', ttl, t2, t3);
    Sender.AcceptsProbe(seqNum, t1, r);
  }

  /**
   * The two receive paths read the kernel timestamp records differently:
   * given an SCM_TIMESTAMP record followed by an SCM_TIMESTAMPNS record, the
   * sender keeps the first and the reflector the second.
   */
  lemma {:induction false} ReceiveStampsDiffer(tv: Cmsg, ts: Cmsg)
    requires IsTimestamp(tv) && IsTimestampNs(ts)
    ensures Sender.FirstStamp([tv, ts]) == Some(TimevalToNtp(TimevalPayload(tv)))
    ensures Reflector.ScanT2([tv, ts]) == Some(TimespecToNtp(TimespecPayload(ts)))
  {
    Sender.FirstStampIs([tv, ts], 0);
    Reflector.ScanT2LastNs([tv, ts], 1);
  }
}
