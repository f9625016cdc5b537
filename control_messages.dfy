/**
 * Ancillary data (control messages) delivered with a received datagram, and
 * the two kernel-timestamp extractors of the shared header:
 * `extract_kernel_timestamp_linux` (SCM_TIMESTAMPING, SCM_TIMESTAMPNS,
 * SCM_TIMESTAMP) and `extract_kernel_timestamp_windows` (SO_TIMESTAMP /
 * SO_TIMESTAMP_ID carrying a FILETIME).
 *
 * A control message is an abstract record: its level, its type, its
 * `cmsg_len` and its payload read as a sequence of machine words (a
 * `timespec` is two words, `scm_timestamping` six, an `int` or a FILETIME
 * one). A word the payload does not hold reads as 0.
 */
module ControlMessages {
  import opened Wire
  import opened NtpTime

  /** Linux (x86-64) values of the levels and types the scans test. */
  const SOL_SOCKET: int := 1
  const SCM_TIMESTAMP: int := 29
  const SCM_TIMESTAMPNS: int := 35
  const SCM_TIMESTAMPING: int := 37
  const IPPROTO_IP: int := 0
  const IP_TTL: int := 2
  const IPPROTO_IPV6: int := 41
  const IPV6_HOPLIMIT: int := 52
  /** CMSG_LEN(3 * sizeof(struct timespec)): a 16-byte header and three 16-byte timespecs. */
  const TIMESTAMPING_CMSG_LEN: nat := 64

  /** Winsock values. */
  const WSA_SOL_SOCKET: int := 0xffff
  const WSA_SO_TIMESTAMP: int := 0x300A
  const WSA_SO_TIMESTAMP_ID: int := 0x300B
  /** WSA_CMSGDATA_ALIGN(sizeof(WSACMSGHDR)) on a 64-bit build. */
  const WSA_CMSG_HEADER_LEN: nat := 16
  /** sizeof(UINT64). */
  const FILETIME_LEN: nat := 8

  datatype Cmsg = Cmsg(level: int, kind: int, len: nat, words: seq<int>)

  function Word(c: Cmsg, i: nat): int
  {
    if i < |c.words| then c.words[i] else 0
  }

  /** The payload of an SCM_TIMESTAMPNS record. */
  function TimespecPayload(c: Cmsg): Timespec
  {
    Timespec(Word(c, 0), Word(c, 1))
  }

  /** The payload of an SCM_TIMESTAMP record. */
  function TimevalPayload(c: Cmsg): Timeval
  {
    Timeval(Word(c, 0), Word(c, 1))
  }

  /** The three timespecs (software, deprecated, raw hardware) of an SCM_TIMESTAMPING record. */
  function TimestampingPayload(c: Cmsg): (ts: seq<Timespec>)
    ensures |ts| == 3
  {
    [Timespec(Word(c, 0), Word(c, 1)), Timespec(Word(c, 2), Word(c, 3)), Timespec(Word(c, 4), Word(c, 5))]
  }

  predicate IsZero(ts: Timespec)
  {
    ts.sec == 0 && ts.nsec == 0
  }

  predicate IsTimestampNs(c: Cmsg)
  {
    c.level == SOL_SOCKET && c.kind == SCM_TIMESTAMPNS
  }

  predicate IsTimestamp(c: Cmsg)
  {
    c.level == SOL_SOCKET && c.kind == SCM_TIMESTAMP
  }

  predicate IsTimestamping(c: Cmsg)
  {
    c.level == SOL_SOCKET && c.kind == SCM_TIMESTAMPING
  }

  /**
   * The timespec chosen from an SCM_TIMESTAMPING record: the first of the
   * three that is not (0, 0), or the first one when all three are zero.
   */
  function FirstNonZero(ts: seq<Timespec>): (k: nat)
    requires |ts| == 3
    ensures k < 3
    ensures (exists i :: 0 <= i < 3 && !IsZero(ts[i])) <==> !IsZero(ts[k])
    ensures forall j :: 0 <= j < k ==> IsZero(ts[j])
  {
    if !IsZero(ts[0]) then 0 else if !IsZero(ts[1]) then 1 else if !IsZero(ts[2]) then 2 else 0
  }

  /** The inner selection loop of the SCM_TIMESTAMPING branch. */
  method SelectTimespec(ts: seq<Timespec>) returns (k: nat)
    requires |ts| == 3
    ensures k == FirstNonZero(ts)
  {
    k := 0;
    var i := 0;
    while i < 3
      invariant 0 <= i <= 3
      invariant k == 0
      invariant forall j :: 0 <= j < i ==> IsZero(ts[j])
    {
      if !IsZero(ts[i]) {
        k := i;
        return;
      }
      i := i + 1;
    }
  }

  /**
   * What one record contributes to `extract_kernel_timestamp_linux`: a
   * timestamp for the three timestamp kinds, none for any other record and
   * none for an SCM_TIMESTAMPING record too short to hold three timespecs.
   */
  function LinuxRecordTimestamp(c: Cmsg): (r: Option<NtpTimestamp>)
    ensures r.Some? <==> (IsTimestamping(c) && c.len >= TIMESTAMPING_CMSG_LEN) || IsTimestampNs(c) || IsTimestamp(c)
  {
    if IsTimestamping(c) then
      if c.len < TIMESTAMPING_CMSG_LEN then None
      else
        var ts := TimestampingPayload(c);
        Some(TimespecToNtp(ts[FirstNonZero(ts)]))
    else if IsTimestampNs(c) then Some(TimespecToNtp(TimespecPayload(c)))
    else if IsTimestamp(c) then Some(TimevalToNtp(TimevalPayload(c)))
    else None
  }

  /**
   * extract_kernel_timestamp_linux: scans the records in order and stops
   * at the first one that yields a timestamp; none when no record does.
   */
  method ExtractKernelTimestampLinux(msgs: seq<Cmsg>) returns (r: Option<NtpTimestamp>)
    ensures r.None? <==> forall i :: 0 <= i < |msgs| ==> LinuxRecordTimestamp(msgs[i]).None?
    ensures r.Some? ==> exists k :: (0 <= k < |msgs| && r == LinuxRecordTimestamp(msgs[k])
      && forall j :: 0 <= j < k ==> LinuxRecordTimestamp(msgs[j]).None?)
  {
    var i := 0;
    while i < |msgs|
      invariant 0 <= i <= |msgs|
      invariant forall j :: 0 <= j < i ==> LinuxRecordTimestamp(msgs[j]).None?
    {
      var c := msgs[i];
      if c.level == SOL_SOCKET && c.kind == SCM_TIMESTAMPING {
        if c.len < TIMESTAMPING_CMSG_LEN {
          i := i + 1;
          continue;
        }
        var ts := TimestampingPayload(c);
        var k := SelectTimespec(ts);
        return Some(TimespecToNtp(ts[k]));
      }
      if c.level == SOL_SOCKET && c.kind == SCM_TIMESTAMPNS {
        return Some(TimespecToNtp(TimespecPayload(c)));
      }
      if c.level == SOL_SOCKET && c.kind == SCM_TIMESTAMP {
        return Some(TimevalToNtp(TimevalPayload(c)));
      }
      i := i + 1;
    }
    return None;
  }

  /**
   * An SCM_TIMESTAMPING record takes precedence over a later SCM_TIMESTAMPNS
   * one, and a truncated SCM_TIMESTAMPING record hands the choice to the
   * records after it.
   */
  lemma {:induction false} TimestampingBeforeNs(ts: Cmsg, ns: Cmsg)
    requires IsTimestamping(ts) && IsTimestampNs(ns)
    ensures ts.len >= TIMESTAMPING_CMSG_LEN ==> LinuxRecordTimestamp(ts).Some?
    ensures ts.len < TIMESTAMPING_CMSG_LEN ==> LinuxRecordTimestamp(ts).None? && LinuxRecordTimestamp(ns).Some?
  {
  }

  /** A complete record whose three timespecs are all zero still yields a timestamp: that of (0, 0). */
  lemma {:induction false} AllZeroTimestamping(c: Cmsg)
    requires IsTimestamping(c) && c.len >= TIMESTAMPING_CMSG_LEN
    requires forall i :: 0 <= i < 6 ==> Word(c, i) == 0
    ensures LinuxRecordTimestamp(c) == Some(TimespecToNtp(Timespec(0, 0)))
  {
    var ts := TimestampingPayload(c);
    assert IsZero(ts[0]) && IsZero(ts[1]) && IsZero(ts[2]);
  }

  /**
   * When the software stamp is zero and the raw hardware stamp is not, but
   * the middle one is zero too, the hardware stamp is taken.
   */
  lemma {:induction false} HardwareStampChosen(c: Cmsg)
    requires IsTimestamping(c) && c.len >= TIMESTAMPING_CMSG_LEN
    requires Word(c, 0) == 0 && Word(c, 1) == 0 && Word(c, 2) == 0 && Word(c, 3) == 0
    requires Word(c, 4) != 0 || Word(c, 5) != 0
    ensures LinuxRecordTimestamp(c) == Some(TimespecToNtp(Timespec(Word(c, 4), Word(c, 5))))
  {
  }

  // ---------------------------------------------------------------------------
  // Windows
  // ---------------------------------------------------------------------------

  predicate IsWindowsTimestamp(c: Cmsg)
  {
    c.level == WSA_SOL_SOCKET && (c.kind == WSA_SO_TIMESTAMP || c.kind == WSA_SO_TIMESTAMP_ID)
  }

  /** `cmsg_len - WSA_CMSGDATA_ALIGN(sizeof(WSACMSGHDR))` in size_t arithmetic. */
  function WindowsDataLen(c: Cmsg): u64
  {
    Wrap64(c.len - WSA_CMSG_HEADER_LEN)
  }

  /** The FILETIME a record carries, as the UINT64 its first word is copied into. */
  function FileTimePayload(c: Cmsg): u64
  {
    Wrap64(Word(c, 0))
  }

  /**
   * What one record contributes to `extract_kernel_timestamp_windows`: a
   * timestamp only for a timestamp record with room for a FILETIME whose
   * value is no earlier than 2000-01-01.
   */
  function WindowsRecordTimestamp(c: Cmsg): (r: Option<NtpTimestamp>)
    ensures r.Some? <==> IsWindowsTimestamp(c) && WindowsDataLen(c) >= FILETIME_LEN && FileTimePayload(c) >= FILETIME_2000
  {
    if IsWindowsTimestamp(c) && WindowsDataLen(c) >= FILETIME_LEN && FileTimePayload(c) >= FILETIME_2000 then
      Some(FileTimeToNtp(FileTimePayload(c)))
    else None
  }

  /** extract_kernel_timestamp_windows: the first record that yields a timestamp wins. */
  method ExtractKernelTimestampWindows(msgs: seq<Cmsg>) returns (r: Option<NtpTimestamp>)
    ensures r.None? <==> forall i :: 0 <= i < |msgs| ==> WindowsRecordTimestamp(msgs[i]).None?
    ensures r.Some? ==> exists k :: (0 <= k < |msgs| && r == WindowsRecordTimestamp(msgs[k])
      && forall j :: 0 <= j < k ==> WindowsRecordTimestamp(msgs[j]).None?)
  {
    var i := 0;
    while i < |msgs|
      invariant 0 <= i <= |msgs|
      invariant forall j :: 0 <= j < i ==> WindowsRecordTimestamp(msgs[j]).None?
    {
      var c := msgs[i];
      if c.level == WSA_SOL_SOCKET && (c.kind == WSA_SO_TIMESTAMP || c.kind == WSA_SO_TIMESTAMP_ID) {
        var dataLen := Wrap64(c.len - WSA_CMSG_HEADER_LEN);
        if dataLen >= FILETIME_LEN {
          var filetime := FileTimePayload(c);
          if filetime >= FILETIME_2000 {
            return Some(FileTimeToNtp(filetime));
          }
        }
      }
      i := i + 1;
    }
    return None;
  }

  /** A FILETIME before 2000-01-01 is rejected, whatever the record's length. */
  lemma {:induction false} FileTimeBefore2000Rejected(c: Cmsg)
    requires FileTimePayload(c) < FILETIME_2000
    ensures WindowsRecordTimestamp(c).None?
  {
  }

  /**
   * An accepted FILETIME gives NTP seconds of at least 3155673600
   * (2000-01-01); the value stays below 2^32 until 2036.
   */
  lemma {:induction false} WindowsTimestampAfter2000(c: Cmsg)
    requires WindowsRecordTimestamp(c).Some?
    requires FileTimePayload(c) / WINDOWS_TICKS_PER_SEC < WINDOWS_TO_NTP_OFFSET - NTP_OFFSET + TWO_32
    ensures WindowsRecordTimestamp(c).value.seconds >= 3155673600
  {
  }
}
