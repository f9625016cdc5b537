# STAMP sender and stateless reflector, modelled in Dafny

This project models the core of a command-line implementation of the Simple
Two-way Active Measurement Protocol (STAMP, RFC 8762). It has two programs:

- A *sender* transmits 44-byte test packets, each numbered and stamped with its
  transmit time T1. It waits for each reply, checks it, and keeps statistics.
- A *stateless reflector* rewrites each datagram it receives, in its own
  buffer, into a reflector packet and sends it back. The reflector packet
  carries the sender's fields, the receive time T2, the transmit time T3 and
  the received TTL.

The model covers:

- **The packets** (`Wire`, `Packets`). The two 44-byte formats are modelled
  as byte sequences with big-endian fields. Separately:
  - `validate_stamp_packet`;
  - the Error Estimate field of section 4.1.2 of RFC 4656.
- **Time** (`NtpTime`). This is the 64-bit NTP timestamp of section 6 of
  RFC 5905. It covers the integer rounding macros that turn nanoseconds,
  microseconds and Windows 100 ns ticks into a 32-bit fraction. It also
  covers `timespec_to_ntp`/`timeval_to_ntp` (epoch offset 2208988800, seconds
  modulo 2^32) and the Windows FILETIME conversion.
- **Kernel control messages** (`ControlMessages`). Records are abstract
  `(level, type, len, words)` values. The model covers the selection loops of
  `extract_kernel_timestamp_linux` and `extract_kernel_timestamp_windows`.
- **Platform** (`Platform`). This covers `get_sockaddr_len` and
  `sockaddr_get_port`. The clock and the UDP socket are scripted objects:
  - `Clock` holds the readings `get_ntp_timestamp` will return, where `None`
    is a failed read;
  - `UdpSocket` holds:
    - the coming `recvmsg` results;
    - whether each coming `sendto` succeeds;
    - a log of every datagram handed to `sendto`;
    - a count of receive calls.

  Every property below therefore holds for every clock and every network
  behaviour.
- **Reflector** (`Reflector`). This covers:
  - the control-message scan of `recv_stamp_packet` for TTL and T2;
  - the in-place rewrite of `reflect_packet`, which snapshots the sender's
    fields, then writes the reflected fields, then writes T3 last;
  - the zero padding of short datagrams in the receive loop;
  - the `packets_reflected`/`packets_dropped` counters, kept in the class
    `ReflectorStats`. Over any number of turns, the counters account for the
    socket's log modulo 2^32.
- **Sender** (`Sender`). This covers:
  - building the probe in `send_stamp_packet`;
  - the "first kernel timestamp wins" scan of `recv_with_timestamp`;
  - the gates of `receive_and_process_packet`: timeout, then the size check,
    then the sequence match;
  - the statistics, kept in the class `SenderStats`;
  - the main loop with its wrapping `seq` counter.

  The statistics are specified as a fold (`Tally`) of events over the
  initial `g_stats`.
- **Session** (`Session`). These lemmas connect the two halves. The
  reflector's reply to a probe decodes to the expected reflector packet, the
  sender accepts it, and a reply to another sequence number is refused.
- **Options** (`Options`):
  - `parse_port`, over a model of base-10 `strtoul` with a 64-bit
    `unsigned long`;
  - `stamp_getopt` with its globals `stamp_optind`, `stamp_optarg` and
    `stamp_optopt`, both as a step function and as the class `GetOpt`.

Integers are unbounded in Dafny. Every `uint32` counter and seconds field is
reduced modulo 2^32 explicitly (`Wrap32`), and `time_t` arithmetic modulo
2^64 (`Wrap64`).

Where the functions are pure in the C code, the model uses functions and
lemmas. Where the C code updates state, the model uses:

- methods over arrays (the packet buffer);
- classes (the statistics, the clock, the socket and the getopt globals);
- loops (the control-message scans and the main loops).

Each of these methods is proved against a specification function.

## Model

| member | source | states |
|---|---|---|
| `Wire.Splice` | src/reflector.c:392-408 | Writing bytes at an offset keeps the length, and every other byte stays as it was. |
| `Wire.Store` | src/reflector.c:392-408 | The in-place write of a field into the buffer leaves the buffer equal to the spliced image. |
| `Wire.U32AtBE32` | src/stamp.h:159-186 | Reading a big-endian u32 back from its `htonl` encoding gives the value. |
| `Wire.BE32U32At` | src/stamp.h:159-186 | Encoding a decoded u32 gives back the four wire bytes. |
| `Wire.BE32Injective` | src/sender.c:340-345 | Equal big-endian images mean equal sequence numbers, so the sender's byte-wise comparison is a value comparison. |
| `Wire.Wrap32Add` | src/reflector.c:420-436 | Adding to a counter modulo 2^32 twice equals adding the sum once. |
| `NtpTime.NtpAtEncodeNtp` | src/stamp.h:170-186 | A timestamp written as two big-endian words reads back unchanged. |
| `NtpTime.EncodeNtpAt` | src/stamp.h:170-186 | The 8 bytes of a timestamp field are exactly the encoding of what is read from them. |
| `NtpTime.RoundToNtpFracExact` | src/stamp.h:96-106 | For 0 <= x < d, the rounded fraction floor((x*2^32 + d/2)/d) is below 2^32, so the uint32 cast never truncates. It is within half a unit of x*2^32/d. |
| `NtpTime.RoundToNtpFracNoWrap` | src/stamp.h:96-106 | The intermediate x*2^32 + d/2 fits in the 64-bit computation, and the cast leaves the quotient unchanged. |
| `NtpTime.NsecToNtpFracNearest` | src/stamp.h:96-97 | NSEC_TO_NTP_FRAC of nsec < 10^9 is the nearest 2^-32 fraction, within half a unit. |
| `NtpTime.UsecToNtpFracNearest` | src/stamp.h:98-99 | USEC_TO_NTP_FRAC of usec < 10^6 is the nearest fraction, within half a unit. |
| `NtpTime.Windows100nsToNtpFracNearest` | src/stamp.h:105-106 | WINDOWS_100NS_TO_NTP_FRAC of ticks < 10^7 is within half a unit of the exact fraction. |
| `NtpTime.RoundToNtpFracLandmarks` | src/stamp.h:96-106 | For all three macros, 0 maps to 0 and half a second maps to 2^31. |
| `NtpTime.RoundToNtpFracMonotone` | src/stamp.h:96-106 | A later sub-second value never gives a smaller fraction. |
| `NtpTime.UnixSecondsToNtpValue` | src/stamp.h:48 | NTP seconds are (Unix seconds + 2208988800) mod 2^32, and Unix second 0 is NTP second 2208988800. |
| `NtpTime.TimespecToNtp` | src/stamp.h:537-541 | The seconds are the Unix seconds plus the epoch offset, modulo 2^32. For a valid tv_nsec, the fraction is the nearest one. |
| `NtpTime.TimevalToNtp` | src/stamp.h:550-554 | The same for a timeval with microseconds. |
| `NtpTime.FileTimeToNtp` | src/stamp.h:513-517 | A FILETIME at or after 1970 gives seconds (ticks/10^7 - 9435484800) mod 2^32. In every case the fraction is the nearest to the 100 ns remainder. |
| `NtpTime.FileTime2000` | src/stamp.h:510 | The FILETIME threshold 125911584000000000 is 2000-01-01, NTP second 3155673600. |
| `Packets.EncodeReflector` | src/stamp.h:170-186 | A reflector packet's wire image is exactly 44 bytes. |
| `Packets.DecodeSender` | src/stamp.h:159-166 | Decoding succeeds exactly for 44 or more bytes, and gives a packet with a 30-byte MBZ field. |
| `Packets.DecodeReflector` | src/stamp.h:170-186 | Decoding succeeds exactly for 44 or more bytes. |
| `Packets.SenderLayout` | src/stamp.h:159-166 | The sender packet is at seq 0..3, timestamp 4..7 and 8..11, error estimate 12..13, MBZ 14..43. |
| `Packets.ReflectorLayout` | src/stamp.h:170-186 | The reflector packet is at:<br>seq 0, ts 4/8, err 12, mbz_1 14;<br>rx 16/20, sender_seq 24;<br>sender_ts 28/32, sender_err 36, mbz_2 38;<br>ttl 40, mbz_3 41..43. |
| `Packets.SenderRoundTrip` | src/stamp.h:159-166 | Decoding an encoded sender packet gives it back. |
| `Packets.SenderDecodeEncode` | src/stamp.h:159-166 | Re-encoding a decoded buffer gives its first 44 bytes. |
| `Packets.DecodeSenderPrefix` | src/stamp.h:159-166 | Only the first 44 bytes decide the decoded sender packet. |
| `Packets.ReflectorRoundTrip` | src/stamp.h:170-186 | Decoding an encoded reflector packet gives it back. |
| `Packets.ReflectorDecodeEncode` | src/stamp.h:170-186 | Re-encoding a decoded reflector buffer gives its first 44 bytes. |
| `Packets.DecodeReflectorPrefix` | src/stamp.h:170-186 | Only the first 44 bytes decide the decoded reflector packet. |
| `Packets.ValidateStampPacket` | src/stamp.h:262-266 | Returns 1 exactly when size >= 44, and 0 otherwise. |
| `Packets.ValidateIgnoresContents` | src/stamp.h:262-266 | The verdict never depends on the packet's bytes. |
| `Packets.ErrorEstimateRoundTrip` | src/stamp.h:111-118 | Splitting a 16-bit Error Estimate with the S, Z, Scale and Multiplier masks and joining the parts gives the field back. |
| `Packets.ErrorEstimateFieldsRoundTrip` | src/stamp.h:111-118 | Joining in-range parts and splitting them again gives the parts back. |
| `Packets.DefaultErrorEstimate` | src/stamp.h:118 | ERROR_ESTIMATE_DEFAULT 0x8001 is S=1, Z=0, Scale=0, Multiplier=1, and goes on the wire as bytes 0x80 0x01. |
| `ControlMessages.TimestampingPayload` | src/stamp.h:582-593 | An SCM_TIMESTAMPING record carries three timespecs. |
| `ControlMessages.FirstNonZero` | src/stamp.h:596-604 | The chosen index is the first non-zero timespec. It is 0 when all three are zero. |
| `ControlMessages.SelectTimespec` | src/stamp.h:596-604 | The inner loop's `selected` is FirstNonZero. |
| `ControlMessages.LinuxRecordTimestamp` | src/stamp.h:582-626 | A record yields a timestamp exactly when it is SCM_TIMESTAMPING of at least three timespecs, SCM_TIMESTAMPNS, or SCM_TIMESTAMP. |
| `ControlMessages.ExtractKernelTimestampLinux` | src/stamp.h:569-629 | Returns nothing exactly when no record yields a timestamp. Otherwise it returns the timestamp of the first record that yields one. |
| `ControlMessages.TimestampingBeforeNs` | src/stamp.h:582-617 | An SCM_TIMESTAMPING record shorter than three timespecs is skipped. An SCM_TIMESTAMPNS record after it is then used. |
| `ControlMessages.AllZeroTimestamping` | src/stamp.h:596-606 | With all three timespecs zero, ts[0] is used, which gives NTP second 2208988800. |
| `ControlMessages.HardwareStampChosen` | src/stamp.h:596-606 | With ts[0] and ts[1] zero and ts[2] non-zero, the hardware stamp ts[2] is used. |
| `ControlMessages.WindowsRecordTimestamp` | src/stamp.h:497-519 | A Windows record yields a timestamp exactly when it is SO_TIMESTAMP or SO_TIMESTAMP_ID at socket level, holds at least 8 data bytes, and holds a FILETIME at or after 2000. |
| `ControlMessages.ExtractKernelTimestampWindows` | src/stamp.h:484-527 | Returns nothing exactly when no record yields a timestamp. Otherwise it returns the first record's timestamp. |
| `ControlMessages.FileTimeBefore2000Rejected` | src/stamp.h:510 | Any FILETIME below 125911584000000000 is rejected. |
| `ControlMessages.WindowsTimestampAfter2000` | src/stamp.h:510-517 | An accepted FILETIME from before the 2036 wrap of NTP seconds gives NTP seconds at or after 2000. |
| `Platform.GetSockaddrLen` | src/stamp.h:642-646 | The address length is sizeof(sockaddr_in6) exactly for AF_INET6, and sizeof(sockaddr_in) otherwise. |
| `Platform.SockaddrGetPort` | src/stamp.h:653-668 | A missing address or another family gives port 0. |
| `Platform.SockaddrGetPortHtons` | src/stamp.h:653-668 | For IPv4 and IPv6, the port stored in network order is read back as the host-order value. |
| `Platform.Drop` | src/stamp.h:197-236 | Skipping n clock readings shifts every later reading by n. |
| `Platform.DropDrop` | src/stamp.h:197-236 | Skipping m readings and then n readings is skipping m + n. |
| `Platform.Clock.GetNtpTimestamp` | src/stamp.h:197-236 | Returns the next reading, or failure when the readings are exhausted or the read fails, and consumes it. |
| `Platform.Delivered` | src/reflector.c:420-436 | At most one delivery is counted per transmission. |
| `Platform.Undelivered` | src/reflector.c:420-436 | Every transmission is either delivered or dropped. |
| `Platform.CountConcat` | src/reflector.c:420-436 | Both counts add over concatenated logs. |
| `Platform.UdpSocket.SendTo` | src/reflector.c:422-424 | `sendto` logs the datagram with its outcome, and returns the length or -1. |
| `Platform.UdpSocket.RecvMsg` | src/reflector.c:544-558 | `recvmsg` takes the next scripted result and truncates the payload to the buffer. It returns the peer and the control records, or -1 and errno. |
| `Reflector.ScanTtlLast` | src/reflector.c:563-611 | The TTL is 0 when no hop-count record is valid. Otherwise it is the value of the last valid IP_TTL/IPV6_HOPLIMIT record. |
| `Reflector.ScanT2LastNs` | src/reflector.c:563-611 | SCM_TIMESTAMPNS always overrides, so the last such record gives T2. |
| `Reflector.ScanT2None` | src/reflector.c:563-617 | No T2 is found exactly when there is neither SCM_TIMESTAMPNS nor SCM_TIMESTAMP. |
| `Reflector.ScanT2FirstTs` | src/reflector.c:563-611 | Without SCM_TIMESTAMPNS, the first SCM_TIMESTAMP gives T2, and later ones are ignored. |
| `Reflector.RecvStampPacket` | src/reflector.c:533-621 | On failure: -1, ttl 0, T2 zero, buffer and clock untouched. On a datagram: the truncated payload lands in the buffer, ttl and T2 come from the scan, and the clock is read only when no kernel stamp came. |
| `Reflector.SnapshotBytes` | src/reflector.c:388-390 | The snapshot holds the received bytes below send_len and zeros past it. |
| `Reflector.CopySender` | src/reflector.c:388-390 | The copy taken before any write is the snapshot of the buffer. |
| `Reflector.HeadIsReflection` | src/reflector.c:392-408 | The rewritten head of a full packet encodes the reflector packet built from the decoded sender packet. |
| `Reflector.ReflectedImageIsReflection` | src/reflector.c:388-418 | The rewritten buffer is the encoded reflection of the snapshot, followed by the untouched bytes from 44 on. |
| `Reflector.ReflectedImageLayout` | src/reflector.c:388-418 | After reflection:<br>seq stays at 0..3 and is copied to 24..27;<br>ts 28..35 and err 36..37 are the original 4..11 and 12..13;<br>T2 is at 16..23, 0x8001 at 12..13, ttl at 40, T3 at 4..11;<br>MBZ 14-15, 38-39 and 41-43 are zero;<br>bytes from 44 on are unchanged. |
| `Reflector.ReflectionEchoesSender` | src/reflector.c:388-399 | The echoed fields come from the snapshot, not from the partly overwritten buffer. For send_len >= 44 the snapshot is the original first 44 bytes. |
| `Reflector.ReflectedImageT3Only` | src/reflector.c:410-419 | T3 changes only bytes 4..11. |
| `Reflector.StoreReflectedFields` | src/reflector.c:392-408 | After the field writes, the buffer holds the final image everywhere except bytes 4..11, which still hold the sender timestamp. |
| `Reflector.StoreT3` | src/reflector.c:410-419 | Writing T3 last completes the reflected image. |
| `Reflector.Padded` | src/reflector.c:782-791 | Padding makes a short datagram exactly 44 bytes, keeps its bytes, and zeroes the rest. A long datagram is unchanged. |
| `Reflector.ReplyContents` | src/reflector.c:365-437 | The reply to a payload decodes to the reflection of the padded sender packet, echoes bytes 44 on, and has the reflector shape. |
| `Reflector.AnswerShape` | src/reflector.c:744-806 | Every datagram the loop sends is 44 to 65507 bytes, repeats its seq at 24..27, and has 0x8001 and zero MBZ bytes. |
| `Reflector.TurnLogged` | src/reflector.c:420-436 | One turn logs at most its one reply, which is reflector-shaped. The counters advance by its delivered and its failed sends. |
| `Reflector.CountedAfter` | src/reflector.c:420-436 | Appending replies and advancing the counters by their delivered and failed sends keeps the log and counters in step. |
| `Reflector.TurnSendsShaped` | src/reflector.c:744-806 | One turn of the loop, on any receive result, clock readings and send outcome, sends at most one datagram, and it is reflector-shaped. |
| `Reflector.TurnsShaped` | src/reflector.c:744-806 | n turns on any scripts send at most n datagrams, all reflector-shaped. |
| `Reflector.ServeDone` | src/reflector.c:744-806 | When the log and counters follow the record of n turns, the log is accounted for and holds at most n replies. |
| `Reflector.ReceivePadded` | src/reflector.c:744-791 | A receive of n <= 0 leaves the buffer. Otherwise the payload is padded to 44 in place, and send_len is the padded length. |
| `Reflector.PadShort` | src/reflector.c:782-791 | For 0 < n < 44, bytes n..43 are zeroed and send_len becomes 44. Otherwise send_len = n. |
| `Reflector.ReflectorStats.ReflectPacket` | src/reflector.c:365-437 | For send_len <= 0 or > 65507: -1, with nothing changed. Otherwise the buffer becomes the reflected image. A failed T3 read returns -1 with counters and log unchanged. Otherwise exactly send_len bytes are sent, and success bumps only packets_reflected while failure bumps only packets_dropped. |
| `Reflector.ReflectorStats.ServeOnce` | src/reflector.c:744-806 | One pass of the receive loop. A receive error or an empty datagram sends nothing. Otherwise, when the T3 read succeeds, the padded reply is sent and counted; a failed T3 read sends and counts nothing. |
| `Reflector.ReflectorStats.Turn` | src/reflector.c:744-806 | One turn sends exactly what the next receive result, clock readings and send outcome call for, and consumes just those entries of the scripts. It appends only reflector-shaped datagrams, and advances the counters by their delivered and failed sends. |
| `Reflector.ReflectorStats.Serve` | src/reflector.c:744-806 | After n turns, the datagrams sent and the scripts left are those of n turns run one after the other on the starting scripts. At most n datagrams are sent, every one reflector-shaped. The counters equal their start plus the log's delivered and failed sends, modulo 2^32. |
| `Sender.Probe` | src/sender.c:142-158 | The probe is exactly 44 bytes. |
| `Sender.ProbeLayout` | src/sender.c:142-158 | The probe has seq big-endian at 0..3, T1 at 4..11, 0x8001 at 12..13, and zeros from 14 to 43. It decodes to that sender packet. |
| `Sender.ProbeUnstamped` | src/sender.c:148-151 | The zero-filled packet with seq and error estimate is the probe with a zero timestamp. |
| `Sender.ProbeStamped` | src/sender.c:152-158 | Writing T1 at offset 4 gives the probe for T1. |
| `Sender.FirstStampIs` | src/sender.c:254-275 | The first SCM_TIMESTAMPNS or SCM_TIMESTAMP record gives T4, and the scan stops there. |
| `Sender.FirstStampNone` | src/sender.c:254-281 | No kernel timestamp exactly when no record is of either kind. |
| `Sender.RecvWithTimestamp` | src/sender.c:229-284 | On failure: -1 and errno, buffer untouched. On a datagram: the truncated payload lands in the buffer, and T4 is the kernel's first stamp, else the clock, else zero. |
| `Sender.TallySent` | src/sender.c:152-169 | `sent` is its start plus the number of probes sent, modulo 2^32. |
| `Sender.TallyTimeouts` | src/sender.c:304-320 | `timeouts` is its start plus the number of timeouts, modulo 2^32. |
| `Sender.TallyReceived` | src/sender.c:377-378 | `received` is its start plus the number of accepted replies, modulo 2^32. |
| `Sender.TallySum` | src/sender.c:356-379 | `sum_rtt` is its start plus the sum of the RTTs. The anomaly flag is sticky: it is set exactly when it was set or some reply was anomalous. |
| `Sender.TallyMin` | src/sender.c:380-381 | `min_rtt` never grows, is at most every RTT, and is either its start or one of the RTTs. |
| `Sender.TallyMax` | src/sender.c:382-383 | `max_rtt` never shrinks, is at least every RTT, and is either its start or one of the RTTs. |
| `Sender.PairedBound` | src/sender.c:449-455 | Since a receive is attempted only after a successful send, timeouts plus accepted replies never exceed probes sent. |
| `Sender.PairedConcat` | src/sender.c:449-455 | Rounds that each pair their events keep the whole run paired. |
| `Sender.TallyConcat` | src/sender.c:449-455 | Tallying two runs in turn is tallying their concatenation. |
| `Sender.AcceptsProbe` | src/sender.c:323-345 | A reply is accepted exactly when it has at least 44 bytes and its bytes 24..27 carry the probe's seq. Such a reply passes validate_stamp_packet. |
| `Sender.Verdict` | src/sender.c:323-383 | An accepted reply yields exactly one Replied event, and a rejected one none. |
| `Sender.Outcome` | src/sender.c:294-391 | A receive yields a timeout event exactly for EAGAIN/EWOULDBLOCK, and a reply event exactly for an accepted datagram. Other errors yield nothing. |
| `Sender.ProbeThenOutcome` | src/sender.c:449-455 | A send followed by its receive counts one probe, and at most one timeout or reply. |
| `Sender.SenderStats.SendStampPacket` | src/sender.c:142-170 | When the T1 read fails: -1, with the unstamped probe in the buffer and nothing counted or sent. Otherwise the stamped probe is sent, and `sent` grows only when sendto succeeds. |
| `Sender.SenderStats.Record` | src/sender.c:356-383 | An accepted reply bumps `received`, adds the RTT and updates min/max strictly. |
| `Sender.SenderStats.CountTimeout` | src/sender.c:304-320 | Only EAGAIN/EWOULDBLOCK increments `timeouts`. |
| `Sender.SenderStats.ProcessReply` | src/sender.c:323-383 | A short reply or a seq mismatch returns -1 with no counter changed. An accepted reply returns 0 and is tallied. |
| `Sender.SenderStats.ReceiveAndProcessPacket` | src/sender.c:294-391 | Receives one datagram. The statistics move by exactly the Outcome events, rc is 0 only for an accepted reply, and the peer address is updated on any datagram. |
| `Sender.RoundOnSound` | src/sender.c:449-455 | A round sends a probe exactly when the T1 read succeeds, and then only one, with seq, to the current address. Its events are paired, with one send per delivered probe. |
| `Sender.RoundsSound` | src/sender.c:449-455 | n rounds on any scripts log probes numbered by their rounds modulo 2^32, in increasing round order, with paired events whose sends equal the delivered probes. |
| `Sender.SenderStats.Round` | src/sender.c:449-455 | One iteration sends the probe for seq, and what it logs, its events, the next address and the scripts left are those the round calls for on the scripts at its start. It receives only after a successful send, and its events are paired. |
| `Sender.SenderStats.Run` | src/sender.c:449-455 | After n rounds, seq is n mod 2^32. The probes, events, sending rounds, address and scripts left are those of n rounds run one after the other on the starting scripts. The log is the probes, each carrying its round's wrapped number. The statistics are the tally of paired events whose sends equal the delivered probes. |
| `Session.ReplyToProbe` | src/reflector.c:365-437 | The reflector's answer to a probe is 44 bytes. It decodes to the probe's seq and T1 echoed, with T2, T3, the TTL, error estimate 0x8001 and zero MBZ fields. |
| `Session.ReplyAccepted` | src/sender.c:323-383 | The sender accepts the reflector's answer to its own probe, and tallies its delays from exactly T1..T4. |
| `Session.StaleReplyRejected` | src/sender.c:340-345 | A reply to a probe with another sequence number is refused, whatever its timestamps. |
| `Session.ReceiveStampsDiffer` | src/reflector.c:563-611 | Given SCM_TIMESTAMP followed by SCM_TIMESTAMPNS, the sender keeps the first record and the reflector the second. |
| `Options.StrLen` | src/stamp.h:290 | The C string ends at the first NUL or at the end of the buffer. |
| `Options.ParsePort` | src/stamp.h:390-416 | rc is 0 or -1. On -1 the port is unchanged. On 0 the port is in 1..65535. |
| `Options.ParsePortOf` | src/stamp.h:390-416 | On white space, a sign and digits, parse_port succeeds exactly when the value fits in 64 bits and, after a minus sign has negated it modulo 2^64, lies in 1..65535. It then stores that value. |
| `Options.StrtoulOf` | src/stamp.h:402-409 | strtoul consumes all of white space, a sign and digits, and reports ERANGE exactly above ULONG_MAX. |
| `Options.ParsePortDecimal` | src/stamp.h:390-416 | A plain decimal string is accepted exactly when its value is a port in 1..65535. |
| `Options.ParsePortAccepted` | src/stamp.h:390-416 | Every accepted string is white space, a sign and digits, nothing more up to its NUL, and the port is that number. |
| `Options.NegativeInputWrapsToPort` | src/stamp.h:403-415 | "-18446744073709551535" is accepted as port 81. |
| `Options.ParsePortUnsigned` | src/stamp.h:390-416 | The corrected parse returns 0 or -1, leaves the port on failure, and agrees with parse_port whenever it succeeds. |
| `Options.ParsePortUnsignedAccepted` | src/stamp.h:390-416 | Every string the corrected parse accepts is an unsigned decimal, and the port is its value. |
| `Options.ParsePortUnsignedRefusesMinus` | src/stamp.h:390-416 | The corrected parse refuses every negative number. |
| `Options.Find` | src/stamp.h:301-302 | strchr gives the first occurrence of the option letter before the NUL, or none. |
| `Options.GetOptStep` | src/stamp.h:283-339 | optind never decreases and grows by at most 2. It stays within argc if it was. Every returned option consumes at least one word. |
| `Options.GetOptEnd` | src/stamp.h:285-298 | -1 is returned exactly when the word is not an option. A word shorter than 2 or not starting with '-' leaves optind unchanged, and "--" advances it. |
| `Options.GetOptUnknown` | src/stamp.h:300-307 | An unknown letter returns '?' and sets optopt. |
| `Options.GetOptTrailing` | src/stamp.h:309-337 | A no-argument option followed by more characters returns '?' and sets optopt. |
| `Options.GetOptLetter` | src/stamp.h:300-338 | Any other return is the option's letter, which occurs in optstring. |
| `Options.ReflectorCommandLine` | src/reflector.c:647-680 | With "46d", the words "-4 -d 8620" return '4', then 'd', then -1, with optind at the port argument. |
| `Options.GetOpt.Next` | src/stamp.h:283-339 | One call updates the globals and returns exactly as the step function says. |

## Left out

- Floating point: `ntp_to_double` and the forward, backward, RTT and offset
  arithmetic of `receive_and_process_packet` (src/sender.c:348-374) are not
  modelled. They become the opaque `DelayModel`, which maps T1..T4 to an RTT
  and a negative-delay flag. The RTT statistics are real numbers, with no
  rounding.
- `print_statistics`, `print_usage` and all printf, fprintf and usage output
  are left out, because they are output only.
- Socket setup is left out: `init_socket`, `init_reflector_socket`, the
  `setsockopt` calls, `bind`, WSA start-up, `init_wsa_recvmsg` and
  `enable_kernel_timestamping_windows`. These are operating-system calls.
  `sendto` and `recvmsg` are the scripted `UdpSocket`.
- Address resolution and formatting are left out: `resolve_address*`,
  `sockaddr_to_string*` and `format_sockaddr_with_port`. They wrap
  getaddrinfo, getnameinfo and snprintf. The server address is an arbitrary
  `SockAddr` parameter.
- The reflector's firewall management through `system()` is left out,
  because it runs external commands.
- Signals, `g_running` and the sleeps between probes are left out. The main
  loops run a given number of turns or rounds instead of until a signal.
- The real clock is left out. `get_ntp_timestamp` reads a scripted sequence
  of readings, so any clock value or failure is possible. The POSIX
  `clock_gettime` branch is what the readings stand for.
- The Windows receive paths of `recv_stamp_packet` and
  `recv_with_timestamp` (WSARecvMsg) are not modelled as loops. Their record
  selection is `ExtractKernelTimestampWindows`.
- The `main` functions' glue beyond the loops modelled is left out:
  argument-count checks, the port < 1024 privilege check, and socket and
  address set-up.
- `Options.GetOptStep`: `stamp_optarg` points into `argv` in the C code. In
  the model it is a copy of the string, so aliasing is not modelled.
- The `stamp_getopt` model follows the Windows substitute for getopt(3). On
  POSIX builds the C library's getopt is used instead, which is not part of
  this model.
- Arguments are sequences of characters, not bytes. The signedness of
  `char` in `stamp_optopt = opt` and in the option comparisons is not
  modelled, so bytes from 0x80 up and multibyte arguments are not
  represented.
- `ControlMessages.WindowsTimestampAfter2000` holds only for FILETIMEs
  before the 2036 wrap of the 32-bit NTP seconds. Later ones wrap to small
  seconds, as the code's truncation does.
- `Options.Strtoul` takes `unsigned long` as 64 bits, as on LP64 Linux. On
  Windows, `unsigned long` is 32 bits.
- Two test expectations that contradict the code are not stated as
  properties:
  - tests/test_stamp.c:100 expects `validate_stamp_packet(NULL, 44)` to be
    0, but the code never reads its packet argument;
  - tests/test_stamp.c:128-131 expect `get_ntp_timestamp` to reject NULL,
    but the code has no NULL check.

  The model has no NULL arguments.
- The epsilon-based floating-point tests of `ntp_to_double` are not
  modelled, because the model has no floating point.

## Findings

| source | as written | input that shows it | evidently intended | confidence | as-written member | corrected member |
|---|---|---|---|---|---|---|
| src/stamp.h:403-415 | `parse_port` calls `strtoul`, which accepts a leading minus sign and negates the value modulo 2^64. The range check only sees the wrapped result. | `"-18446744073709551535"` is accepted as port 81. So is `"-18446744073709551615"`, as port 1. | A port argument must be an unsigned decimal, and negative numbers are rejected. | not executed | `Options.NegativeInputWrapsToPort` | `Options.ParsePortUnsigned`, `Options.ParsePortUnsignedAccepted`, `Options.ParsePortUnsignedRefusesMinus` |
