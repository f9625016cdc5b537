/**
 * The 64-bit NTP timestamp of section 6 of RFC 5905 (32 bits of seconds since
 * 1900-01-01, 32 bits of binary fraction) and the integer arithmetic that
 * turns the platform clock formats into it: `struct timespec` (seconds and
 * nanoseconds), `struct timeval` (seconds and microseconds) and the Windows
 * FILETIME (100-nanosecond ticks since 1601-01-01).
 *
 * Every conversion is written with the C code's own unsigned wrap-around:
 * the seconds are computed in `unsigned long`/`uint64_t` and truncated to
 * `uint32_t`, and the fraction macros multiply and add in `uint64_t`.
 */
module NtpTime {
  import opened Wire

  /** Seconds from 1900-01-01 (NTP epoch) to 1970-01-01 (Unix epoch). */
  const NTP_OFFSET: nat := 2208988800
  /** Seconds from 1601-01-01 (Windows epoch) to 1970-01-01. */
  const WINDOWS_TO_NTP_OFFSET: nat := 11644473600
  const WINDOWS_TICKS_PER_SEC: nat := 10_000_000
  const NSEC_PER_SEC: nat := 1_000_000_000
  const USEC_PER_SEC: nat := 1_000_000
  /** 2000-01-01 00:00:00 UTC as a FILETIME; earlier kernel timestamps are rejected. */
  const FILETIME_2000: nat := 125911584000000000

  /** An NTP timestamp as two host-order 32-bit values; it goes on the wire big-endian. */
  datatype NtpTimestamp = NtpTimestamp(seconds: u32, fraction: u32)

  /** `struct timespec` and `struct timeval`: signed platform integers, any value possible. */
  datatype Timespec = Timespec(sec: int, nsec: int)
  datatype Timeval = Timeval(sec: int, usec: int)

  /** The eight wire bytes of a timestamp: seconds then fraction, both big-endian. */
  function EncodeNtp(t: NtpTimestamp): (b: seq<u8>)
    ensures |b| == 8
  {
    BE32(t.seconds) + BE32(t.fraction)
  }

  /** The timestamp whose wire bytes start at `off`. */
  function NtpAt(s: seq<u8>, off: nat): NtpTimestamp
    requires off + 8 <= |s|
  {
    NtpTimestamp(U32At(s, off), U32At(s, off + 4))
  }

  lemma {:induction false} NtpAtEncodeNtp(t: NtpTimestamp, s: seq<u8>, off: nat)
    requires off + 8 <= |s| && s[off..off + 8] == EncodeNtp(t)
    ensures NtpAt(s, off) == t
  {
    assert s[off..off + 4] == EncodeNtp(t)[..4];
    assert s[off + 4..off + 8] == EncodeNtp(t)[4..];
    U32AtBE32(t.seconds, s, off);
    U32AtBE32(t.fraction, s, off + 4);
  }

  lemma {:induction false} EncodeNtpAt(s: seq<u8>, off: nat)
    requires off + 8 <= |s|
    ensures EncodeNtp(NtpAt(s, off)) == s[off..off + 8]
  {
    BE32U32At(s, off);
    BE32U32At(s, off + 4);
    assert s[off..off + 8] == s[off..off + 4] + s[off + 4..off + 8];
  }

  // ---------------------------------------------------------------------------
  // Fraction rounding macros
  // ---------------------------------------------------------------------------

  /**
   * The shared shape of NSEC_TO_NTP_FRAC, USEC_TO_NTP_FRAC and
   * WINDOWS_100NS_TO_NTP_FRAC: (x * 2^32 + units/2) / units in uint64_t,
   * then truncated to uint32_t, where `units` is the clock's ticks per second.
   */
  function RoundToNtpFrac(x: int, units: nat): u32
    requires units > 0
  {
    Wrap32(Wrap64(Wrap64(Wrap64(x) * TWO_32) + units / 2) / units)
  }

  function NsecToNtpFrac(nsec: int): u32 { RoundToNtpFrac(nsec, NSEC_PER_SEC) }
  function UsecToNtpFrac(usec: int): u32 { RoundToNtpFrac(usec, USEC_PER_SEC) }
  function Windows100nsToNtpFrac(ticks: int): u32 { RoundToNtpFrac(ticks, WINDOWS_TICKS_PER_SEC) }

  /** The tick rates the platform clocks use. */
  ghost predicate ClockUnits(units: nat)
  {
    units == NSEC_PER_SEC || units == USEC_PER_SEC || units == WINDOWS_TICKS_PER_SEC
  }

  /**
   * For an in-range sub-second count, no uint64_t product overflows and the
   * uint32_t cast never truncates: the macro is exactly
   * floor((x * 2^32 + units/2) / units), and that value lies within half a
   * fraction unit of the exact x * 2^32 / units.
   */
  lemma {:induction false} RoundToNtpFracExact(x: int, units: nat)
    requires ClockUnits(units) && 0 <= x < units
    ensures (x * TWO_32 + units / 2) / units < TWO_32
    ensures RoundToNtpFrac(x, units) == (x * TWO_32 + units / 2) / units
    ensures var r := RoundToNtpFrac(x, units);
      -(units / 2) < r * units - x * TWO_32 <= units / 2
  {
    RoundToNtpFracNoWrap(x, units);
    QuotientBounds(x * TWO_32 + units / 2, units);
  }

  /** For an in-range count, the uint64_t steps of the macro do not wrap. */
  lemma {:induction false} RoundToNtpFracNoWrap(x: int, units: nat)
    requires ClockUnits(units) && 0 <= x < units
    ensures 0 <= x * TWO_32 + units / 2 < units * TWO_32
    ensures RoundToNtpFrac(x, units) == Wrap32((x * TWO_32 + units / 2) / units)
  {
    assert x * TWO_32 + units / 2 < units * TWO_32 <= TWO_64 / 2;
    assert Wrap64(x) == x;
    assert Wrap64(x * TWO_32) == x * TWO_32;
    assert Wrap64(x * TWO_32 + units / 2) == x * TWO_32 + units / 2;
  }

  /** Euclidean division of `n` by a tick rate, stated linearly for that rate. */
  lemma {:induction false} QuotientBounds(n: int, units: nat)
    requires ClockUnits(units) && 0 <= n < units * TWO_32
    ensures var q := n / units; q * units <= n < q * units + units && 0 <= q < TWO_32
  {
    if units == NSEC_PER_SEC {
      var q := n / 1_000_000_000;
      assert q * 1_000_000_000 <= n < q * 1_000_000_000 + 1_000_000_000;
    } else if units == USEC_PER_SEC {
      var q := n / 1_000_000;
      assert q * 1_000_000 <= n < q * 1_000_000 + 1_000_000;
    } else {
      var q := n / 10_000_000;
      assert q * 10_000_000 <= n < q * 10_000_000 + 10_000_000;
    }
  }

  /** An in-range `tv_nsec` converts to the nearest fraction, within half a unit. */
  lemma {:induction false} NsecToNtpFracNearest(nsec: int)
    requires 0 <= nsec < NSEC_PER_SEC
    ensures NsecToNtpFrac(nsec) == (nsec * TWO_32 + 500_000_000) / 1_000_000_000
    ensures -500_000_000 < NsecToNtpFrac(nsec) * 1_000_000_000 - nsec * TWO_32 <= 500_000_000
  {
    RoundToNtpFracExact(nsec, NSEC_PER_SEC);
  }

  /** An in-range `tv_usec` converts to the nearest fraction, within half a unit. */
  lemma {:induction false} UsecToNtpFracNearest(usec: int)
    requires 0 <= usec < USEC_PER_SEC
    ensures UsecToNtpFrac(usec) == (usec * TWO_32 + 500_000) / 1_000_000
    ensures -500_000 < UsecToNtpFrac(usec) * 1_000_000 - usec * TWO_32 <= 500_000
  {
    RoundToNtpFracExact(usec, USEC_PER_SEC);
  }

  /** A FILETIME sub-second tick count converts to the nearest fraction. */
  lemma {:induction false} Windows100nsToNtpFracNearest(ticks: int)
    requires 0 <= ticks < WINDOWS_TICKS_PER_SEC
    ensures -5_000_000 < Windows100nsToNtpFrac(ticks) * 10_000_000 - ticks * TWO_32 <= 5_000_000
  {
    RoundToNtpFracExact(ticks, WINDOWS_TICKS_PER_SEC);
  }

  /** Zero converts to zero and half a second to 2^31, at every tick rate. */
  lemma {:induction false} RoundToNtpFracLandmarks()
    ensures NsecToNtpFrac(0) == 0 && NsecToNtpFrac(500_000_000) == 0x8000_0000
    ensures UsecToNtpFrac(0) == 0 && UsecToNtpFrac(500_000) == 0x8000_0000
    ensures Windows100nsToNtpFrac(0) == 0 && Windows100nsToNtpFrac(5_000_000) == 0x8000_0000
  {
    RoundToNtpFracExact(500_000_000, NSEC_PER_SEC);
    RoundToNtpFracExact(500_000, USEC_PER_SEC);
    RoundToNtpFracExact(5_000_000, WINDOWS_TICKS_PER_SEC);
  }

  /** Later sub-second counts never give a smaller fraction. */
  lemma {:induction false} RoundToNtpFracMonotone(x: int, y: int, units: nat)
    requires ClockUnits(units) && 0 <= x <= y < units
    ensures RoundToNtpFrac(x, units) <= RoundToNtpFrac(y, units)
  {
    RoundToNtpFracExact(x, units);
    RoundToNtpFracExact(y, units);
  }

  // ---------------------------------------------------------------------------
  // Clock formats to NTP
  // ---------------------------------------------------------------------------

  /** The seconds of timespec_to_ntp/timeval_to_ntp: (unsigned long)tv_sec + NTP_OFFSET, cast to uint32_t. */
  function UnixSecondsToNtp(sec: int): u32
  {
    Wrap32(Wrap64(Wrap64(sec) + NTP_OFFSET))
  }

  /** Reducing modulo 2^64 first does not change the value modulo 2^32. */
  lemma {:induction false} Mod64Mod32(x: int)
    ensures Wrap64(x) % TWO_32 == x % TWO_32
  {
    var q := x / TWO_64;
    var r := Wrap64(x);
    assert x == q * TWO_64 + r;
    assert q * TWO_64 == (q * TWO_32) * TWO_32;
    ModShift(r, q * TWO_32);
  }

  /**
   * The NTP seconds are the Unix seconds plus 2208988800 modulo 2^32, for any
   * `tv_sec`, negative ones included; the Unix epoch maps to 2208988800.
   */
  lemma {:induction false} UnixSecondsToNtpValue(sec: int)
    ensures UnixSecondsToNtp(sec) == (sec + NTP_OFFSET) % TWO_32
    ensures sec == 0 ==> UnixSecondsToNtp(sec) == 2208988800
  {
    var w := Wrap64(sec);
    Mod64Mod32(w + NTP_OFFSET);
    Wrap32Add(w, NTP_OFFSET);
    Mod64Mod32(sec);
    Wrap32Add(sec, NTP_OFFSET);
  }

  /** timespec_to_ntp. */
  function TimespecToNtp(ts: Timespec): (t: NtpTimestamp)
    ensures t.seconds == (ts.sec + NTP_OFFSET) % TWO_32
    ensures 0 <= ts.nsec < NSEC_PER_SEC ==>
      -500_000_000 < t.fraction * 1_000_000_000 - ts.nsec * TWO_32 <= 500_000_000
  {
    UnixSecondsToNtpValue(ts.sec);
    var t := NtpTimestamp(UnixSecondsToNtp(ts.sec), NsecToNtpFrac(ts.nsec));
    if 0 <= ts.nsec < NSEC_PER_SEC then NsecToNtpFracNearest(ts.nsec); t else t
  }

  /** timeval_to_ntp. */
  function TimevalToNtp(tv: Timeval): (t: NtpTimestamp)
    ensures t.seconds == (tv.sec + NTP_OFFSET) % TWO_32
    ensures 0 <= tv.usec < USEC_PER_SEC ==>
      -500_000 < t.fraction * 1_000_000 - tv.usec * TWO_32 <= 500_000
  {
    UnixSecondsToNtpValue(tv.sec);
    var t := NtpTimestamp(UnixSecondsToNtp(tv.sec), UsecToNtpFrac(tv.usec));
    if 0 <= tv.usec < USEC_PER_SEC then UsecToNtpFracNearest(tv.usec); t else t
  }

  /**
   * The FILETIME conversion of get_ntp_timestamp and
   * extract_kernel_timestamp_windows: whole seconds since 1601 less the
   * 1601-to-1970 offset (in uint64_t), plus NTP_OFFSET, cast to uint32_t;
   * the fraction from the remaining 100-nanosecond ticks.
   */
  function FileTimeToNtp(ft: u64): (t: NtpTimestamp)
    ensures ft / WINDOWS_TICKS_PER_SEC >= WINDOWS_TO_NTP_OFFSET ==>
      t.seconds == (ft / WINDOWS_TICKS_PER_SEC - (WINDOWS_TO_NTP_OFFSET - NTP_OFFSET)) % TWO_32
    ensures -5_000_000 < t.fraction * 10_000_000 - (ft % WINDOWS_TICKS_PER_SEC) * TWO_32 <= 5_000_000
  {
    var unixTime := Wrap64(ft / WINDOWS_TICKS_PER_SEC - WINDOWS_TO_NTP_OFFSET);
    var frac100ns := ft % WINDOWS_TICKS_PER_SEC;
    Windows100nsToNtpFracNearest(frac100ns);
    NtpTimestamp(Wrap32(Wrap64(unixTime + NTP_OFFSET)), Windows100nsToNtpFrac(frac100ns))
  }

  /** The 2000-01-01 threshold is NTP second 3155673600 with a zero fraction. */
  lemma {:induction false} FileTime2000()
    ensures FileTimeToNtp(FILETIME_2000) == NtpTimestamp(3155673600, 0)
  {
    RoundToNtpFracLandmarks();
  }
}
