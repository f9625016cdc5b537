/**
 * The operating-system services the reflector and the sender use, as
 * scripted oracles: the real-time clock behind `get_ntp_timestamp`, and a
 * UDP socket whose `recvmsg` results and `sendto` outcomes are given in
 * advance and whose every `sendto` call is logged. Any behaviour of the
 * real services is some script, so what is proved about the callers holds
 * whatever the clock reads and whatever the network delivers.
 *
 * Also the address helpers `get_sockaddr_len` and `sockaddr_get_port`.
 */
module Platform {
  import opened Wire
  import opened NtpTime
  import opened ControlMessages

  /** Linux address-family numbers. */
  const AF_INET: int := 2
  const AF_INET6: int := 10
  /** sizeof(struct sockaddr_in) and sizeof(struct sockaddr_in6). */
  const SOCKADDR_IN_LEN: nat := 16
  const SOCKADDR_IN6_LEN: nat := 28
  /** EAGAIN and EWOULDBLOCK are the same number on Linux. */
  const EAGAIN: int := 11
  const EWOULDBLOCK: int := 11

  /**
   * A socket address: the family, the two bytes of `sin_port`/`sin6_port`
   * as stored (network byte order) and the address bytes.
   */
  datatype SockAddr = SockAddr(family: int, portHi: u8, portLo: u8, address: seq<u8>)

  /** get_sockaddr_len: the size of the address structure of a family. */
  function GetSockaddrLen(family: int): (n: nat)
    ensures n == SOCKADDR_IN6_LEN || n == SOCKADDR_IN_LEN
    ensures n == SOCKADDR_IN6_LEN <==> family == AF_INET6
  {
    if family == AF_INET6 then SOCKADDR_IN6_LEN else SOCKADDR_IN_LEN
  }

  /** sockaddr_get_port: the host-order port of an IPv4 or IPv6 address, 0 otherwise or for NULL. */
  function SockaddrGetPort(addr: Option<SockAddr>): (p: u16)
    ensures addr.None? || (addr.value.family != AF_INET && addr.value.family != AF_INET6) ==> p == 0
  {
    if addr.Some? && (addr.value.family == AF_INET || addr.value.family == AF_INET6) then
      U16At([addr.value.portHi, addr.value.portLo], 0)
    else 0
  }

  /** An address whose port was stored with htons(port) gives that port back. */
  lemma {:induction false} SockaddrGetPortHtons(family: int, port: u16, address: seq<u8>)
    requires family == AF_INET || family == AF_INET6
    ensures SockaddrGetPort(Some(SockAddr(family, BE16(port)[0], BE16(port)[1], address))) == port
  {
    var b := BE16(port);
    U16AtBE16(port, [b[0], b[1]], 0);
  }

  // ---------------------------------------------------------------------------
  // Clock
  // ---------------------------------------------------------------------------

  /** What the `i`-th read of a scripted clock gives: its reading converted, or failure. */
  function ReadAt(readings: seq<Option<Timespec>>, i: nat): (t: Option<NtpTimestamp>)
    ensures t.Some? <==> i < |readings| && readings[i].Some?
    ensures t.Some? ==> t.value == TimespecToNtp(readings[i].value)
  {
    if i < |readings| && readings[i].Some? then Some(TimespecToNtp(readings[i].value)) else None
  }

  /** The readings left after `n` reads. */
  function Drop(readings: seq<Option<Timespec>>, n: nat): (r: seq<Option<Timespec>>)
    ensures forall i: nat :: ReadAt(r, i) == ReadAt(readings, n + i)
  {
    if n <= |readings| then readings[n..] else []
  }

  /** Reading `m` then `n` times leaves what reading `m + n` times does. */
  lemma {:induction false} DropDrop(readings: seq<Option<Timespec>>, m: nat, n: nat)
    ensures Drop(Drop(readings, m), n) == Drop(readings, m + n)
  {
    if m + n <= |readings| {
      assert readings[m..][n..] == readings[m + n..];
    }
  }

  /**
   * The CLOCK_REALTIME clock: each read consumes the next scripted reading,
   * a `timespec` or a failure; an exhausted script fails.
   */
  class Clock {
    var readings: seq<Option<Timespec>>

    constructor(readings: seq<Option<Timespec>>)
      ensures this.readings == readings
    {
      this.readings := readings;
    }

    /** What the next `get_ntp_timestamp` call returns. */
    function Next(): Option<NtpTimestamp>
      reads this
    {
      ReadAt(readings, 0)
    }

    /** The readings left after one read. */
    function Rest(): seq<Option<Timespec>>
      reads this
    {
      Drop(readings, 1)
    }

    /**
     * get_ntp_timestamp (the clock_gettime path): a failing clock gives
     * failure and nothing else; otherwise seconds and fraction computed as
     * timespec_to_ntp does.
     */
    method GetNtpTimestamp() returns (t: Option<NtpTimestamp>)
      modifies this
      ensures t == old(Next())
      ensures readings == old(Rest())
    {
      if |readings| == 0 {
        return None;
      }
      var r := readings[0];
      readings := readings[1..];
      if r.None? {
        return None;
      }
      t := Some(TimespecToNtp(r.value));
    }
  }

  // ---------------------------------------------------------------------------
  // UDP socket
  // ---------------------------------------------------------------------------

  /** One `recvmsg` result: a datagram with its sender and control messages, or an error number. */
  datatype Inbound = Datagram(payload: seq<u8>, from: SockAddr, control: seq<Cmsg>) | Failure(errno: int)

  /** One call of `sendto`: the bytes handed over, the destination, and whether the call succeeded. */
  datatype Transmission = Transmission(data: seq<u8>, to: SockAddr, delivered: bool)

  /** The number of successful sends in a transmission log. */
  function Delivered(ts: seq<Transmission>): (n: nat)
    ensures n <= |ts|
  {
    if |ts| == 0 then 0
    else Delivered(ts[..|ts| - 1]) + if ts[|ts| - 1].delivered then 1 else 0
  }

  /** The number of failed sends in a transmission log. */
  function Undelivered(ts: seq<Transmission>): (n: nat)
    ensures Delivered(ts) + n == |ts|
  {
    if |ts| == 0 then 0
    else Undelivered(ts[..|ts| - 1]) + if ts[|ts| - 1].delivered then 0 else 1
  }

  /** Counting over a log split in two parts. */
  lemma {:induction false} CountConcat(xs: seq<Transmission>, ys: seq<Transmission>)
    ensures Delivered(xs + ys) == Delivered(xs) + Delivered(ys)
    ensures Undelivered(xs + ys) == Undelivered(xs) + Undelivered(ys)
  {
    if |ys| > 0 {
      var init := ys[..|ys| - 1];
      CountConcat(xs, init);
      assert (xs + ys)[..|xs + ys| - 1] == xs + init;
    } else {
      assert xs + ys == xs;
    }
  }

  /** A log of one send is counted by its outcome. */
  lemma {:induction false} CountOne(t: Transmission)
    ensures Delivered([t]) == (if t.delivered then 1 else 0)
    ensures Undelivered([t]) == (if t.delivered then 0 else 1)
  {
    assert [t][..0] == [];
  }

  class UdpSocket {
    /** The results the coming `recvmsg` calls return; once exhausted, every call times out. */
    var inbound: seq<Inbound>
    /** Whether the coming `sendto` calls succeed; once exhausted, every call fails. */
    var sendOutcomes: seq<bool>
    /** Every datagram handed to `sendto`, in order. */
    var transmissions: seq<Transmission>
    /** The number of `recvmsg` calls made. */
    var recvCalls: nat

    constructor(inbound: seq<Inbound>, sendOutcomes: seq<bool>)
      ensures this.inbound == inbound && this.sendOutcomes == sendOutcomes
      ensures transmissions == [] && recvCalls == 0
    {
      this.inbound := inbound;
      this.sendOutcomes := sendOutcomes;
      transmissions := [];
      recvCalls := 0;
    }

    function NextInbound(): Inbound
      reads this
    {
      if |inbound| == 0 then Failure(EAGAIN) else inbound[0]
    }

    function NextSendSucceeds(): bool
      reads this
    {
      |sendOutcomes| > 0 && sendOutcomes[0]
    }

    /** sendto: logs the datagram and returns its length, or -1 on failure. */
    method SendTo(data: seq<u8>, to: SockAddr) returns (r: int)
      modifies this
      ensures transmissions == old(transmissions) + [Transmission(data, to, old(NextSendSucceeds()))]
      ensures r == if old(NextSendSucceeds()) then |data| else -1
      ensures sendOutcomes == if |old(sendOutcomes)| == 0 then [] else old(sendOutcomes)[1..]
      ensures inbound == old(inbound) && recvCalls == old(recvCalls)
    {
      var ok := NextSendSucceeds();
      transmissions := transmissions + [Transmission(data, to, ok)];
      if |sendOutcomes| > 0 {
        sendOutcomes := sendOutcomes[1..];
      }
      r := if ok then |data| else -1;
    }

    /**
     * recvmsg into `buffer`: a datagram longer than the buffer is truncated
     * to it, and the bytes beyond what was received keep their values. A
     * failure returns -1 with the error number and writes nothing.
     */
    method RecvMsg(buffer: array<u8>) returns (n: int, from: SockAddr, control: seq<Cmsg>, errno: int)
      modifies this, buffer
      ensures recvCalls == old(recvCalls) + 1
      ensures inbound == if |old(inbound)| == 0 then [] else old(inbound)[1..]
      ensures sendOutcomes == old(sendOutcomes) && transmissions == old(transmissions)
      ensures old(NextInbound()).Failure? ==>
        n == -1 && errno == old(NextInbound()).errno && control == [] && buffer[..] == old(buffer[..])
      ensures old(NextInbound()).Datagram? ==>
        var d := old(NextInbound());
        var k := if |d.payload| < buffer.Length then |d.payload| else buffer.Length;
        && n == k && from == d.from && control == d.control && errno == 0
        && buffer[..] == Splice(old(buffer[..]), 0, d.payload[..k])
    {
      var d := NextInbound();
      recvCalls := recvCalls + 1;
      if |inbound| > 0 {
        inbound := inbound[1..];
      }
      from := SockAddr(AF_INET, 0, 0, []);
      control := [];
      if d.Failure? {
        n, errno := -1, d.errno;
        return;
      }
      var k := if |d.payload| < buffer.Length then |d.payload| else buffer.Length;
      Store(buffer, 0, d.payload[..k]);
      n, from, control, errno := k, d.from, d.control, 0;
    }
  }

  // ---------------------------------------------------------------------------
  // What is left of the scripts
  // ---------------------------------------------------------------------------

  /** A script with its first entry consumed; an exhausted script stays exhausted. */
  function Tail<T>(s: seq<T>): seq<T>
  {
    if |s| == 0 then [] else s[1..]
  }

  /**
   * The coming clock readings, `sendto` outcomes and `recvmsg` results, as
   * one value: what a loop over the clock and the socket will meet.
   */
  datatype Script = Script(readings: seq<Option<Timespec>>, sendOutcomes: seq<bool>, inbound: seq<Inbound>)
  {
    /** What the next `recvmsg` returns, as UdpSocket.NextInbound. */
    function NextInbound(): Inbound
    {
      if |inbound| == 0 then Failure(EAGAIN) else inbound[0]
    }

    /** Whether the next `sendto` succeeds, as UdpSocket.NextSendSucceeds. */
    function NextSendSucceeds(): bool
    {
      |sendOutcomes| > 0 && sendOutcomes[0]
    }
  }

  /** The scripts `clock` and `sock` have left. */
  ghost function ScriptOf(clock: Clock, sock: UdpSocket): Script
    reads clock, sock
  {
    Script(clock.readings, sock.sendOutcomes, sock.inbound)
  }
}
