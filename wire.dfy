/**
 * Fixed-width unsigned integers as they appear in the STAMP implementation
 * (uint8_t, uint16_t, uint32_t, uint64_t) and the network-byte-order
 * conversions (htons/htonl, ntohs/ntohl) that put them on the wire.
 *
 * A byte sequence is the model of a packet buffer; `U16At`/`U32At` read a
 * big-endian field at a byte offset and `BE16`/`BE32` give the bytes a
 * field occupies once written.
 */
module Wire {

  type u8 = x: int | 0 <= x < 0x100
  type u16 = x: int | 0 <= x < 0x1_0000
  type u32 = x: int | 0 <= x < 0x1_0000_0000
  type u64 = x: int | 0 <= x < 0x1_0000_0000_0000_0000

  const TWO_32: int := 0x1_0000_0000
  const TWO_64: int := 0x1_0000_0000_0000_0000

  datatype Option<+T> = None | Some(value: T)

  /** Unsigned 64-bit arithmetic (uint64_t, size_t, unsigned long on LP64) keeps values modulo 2^64. */
  function Wrap64(x: int): (r: u64)
    ensures 0 <= x < TWO_64 ==> r == x
  {
    x % TWO_64
  }

  /** Truncation to uint32_t: C's unsigned conversion keeps the value modulo 2^32. */
  function Wrap32(x: int): (r: u32)
    ensures 0 <= x < TWO_32 ==> r == x
  {
    x % TWO_32
  }

  /** Counting on from a truncated value lands where counting on from the full value does. */
  lemma {:induction false} Wrap32Add(x: int, y: int)
    ensures Wrap32(Wrap32(x) + y) == Wrap32(x + y)
  {
    var q := x / TWO_32;
    assert x == q * TWO_32 + Wrap32(x);
    assert x + y == q * TWO_32 + (Wrap32(x) + y);
    ModShift(Wrap32(x) + y, q);
  }

  /** Adding a multiple of 2^32 does not change the truncated value. */
  lemma {:induction false} ModShift(a: int, q: int)
    ensures (q * TWO_32 + a) % TWO_32 == a % TWO_32
  {
    var r := a % TWO_32;
    var d := a / TWO_32;
    assert a == d * TWO_32 + r;
    assert q * TWO_32 + a == (q + d) * TWO_32 + r;
  }

  /** The two bytes of `htons(v)` in memory order. */
  function BE16(v: u16): (b: seq<u8>)
    ensures |b| == 2
  {
    [v / 0x100, v % 0x100]
  }

  /** The four bytes of `htonl(v)` in memory order. */
  function BE32(v: u32): (b: seq<u8>)
    ensures |b| == 4
  {
    [v / 0x100_0000, (v / 0x1_0000) % 0x100, (v / 0x100) % 0x100, v % 0x100]
  }

  /** `ntohs` of the 16-bit field stored at byte offset `off`. */
  function U16At(s: seq<u8>, off: nat): u16
    requires off + 2 <= |s|
  {
    (s[off] as int) * 0x100 + s[off + 1] as int
  }

  /** `ntohl` of the 32-bit field stored at byte offset `off`. */
  function U32At(s: seq<u8>, off: nat): u32
    requires off + 4 <= |s|
  {
    (s[off] as int) * 0x100_0000 + (s[off + 1] as int) * 0x1_0000 + (s[off + 2] as int) * 0x100 + s[off + 3] as int
  }

  /** Writing a 16-bit value and reading it back gives the value. */
  lemma {:induction false} U16AtBE16(v: u16, s: seq<u8>, off: nat)
    requires off + 2 <= |s| && s[off..off + 2] == BE16(v)
    ensures U16At(s, off) == v
  {
    assert s[off] == BE16(v)[0] && s[off + 1] == BE16(v)[1];
  }

  /** Writing a 32-bit value and reading it back gives the value. */
  lemma {:induction false} U32AtBE32(v: u32, s: seq<u8>, off: nat)
    requires off + 4 <= |s| && s[off..off + 4] == BE32(v)
    ensures U32At(s, off) == v
  {
    assert s[off] == BE32(v)[0] && s[off + 1] == BE32(v)[1];
    assert s[off + 2] == BE32(v)[2] && s[off + 3] == BE32(v)[3];
    var q1 := v / 0x100;
    var q2 := q1 / 0x100;
    assert v == q1 * 0x100 + v % 0x100;
    assert q1 == q2 * 0x100 + q1 % 0x100;
    assert q2 == (q2 / 0x100) * 0x100 + q2 % 0x100;
    assert v / 0x1_0000 == q2 && v / 0x100_0000 == q2 / 0x100;
  }

  /** Reading a 16-bit field and writing it back reproduces its bytes. */
  lemma {:induction false} BE16U16At(s: seq<u8>, off: nat)
    requires off + 2 <= |s|
    ensures BE16(U16At(s, off)) == s[off..off + 2]
  {
    var v := U16At(s, off);
    assert v / 0x100 == s[off];
    assert v % 0x100 == s[off + 1];
  }

  /** Division by 256 recovers the quotient and remainder of a base-256 digit split. */
  lemma {:induction false} DivMod256(x: int, q: int, r: int)
    requires 0 <= r < 0x100 && x == q * 0x100 + r
    ensures x / 0x100 == q && x % 0x100 == r
  {
  }

  /** Reading a 32-bit field and writing it back reproduces its bytes. */
  lemma {:induction false} BE32U32At(s: seq<u8>, off: nat)
    requires off + 4 <= |s|
    ensures BE32(U32At(s, off)) == s[off..off + 4]
  {
    var a, b, c, d := s[off] as int, s[off + 1] as int, s[off + 2] as int, s[off + 3] as int;
    var v := U32At(s, off);
    DivMod256(v, a * 0x1_0000 + b * 0x100 + c, d);
    DivMod256(v / 0x100, a * 0x100 + b, c);
    DivMod256(v / 0x100 / 0x100, a, b);
    assert v / 0x1_0000 == v / 0x100 / 0x100;
    assert v / 0x100_0000 == v / 0x100 / 0x100 / 0x100;
  }

  /** `BE32` is injective: distinct 32-bit values put distinct bytes on the wire. */
  lemma {:induction false} BE32Injective(v: u32, w: u32)
    requires BE32(v) == BE32(w)
    ensures v == w
  {
    U32AtBE32(v, BE32(v), 0);
    U32AtBE32(w, BE32(w), 0);
  }

  /** `s` with the bytes from offset `off` replaced by `b` (a memcpy into a buffer). */
  function Splice(s: seq<u8>, off: nat, b: seq<u8>): (r: seq<u8>)
    requires off + |b| <= |s|
    ensures |r| == |s|
    ensures forall i :: 0 <= i < |s| ==> r[i] == if off <= i < off + |b| then b[i - off] else s[i]
  {
    s[..off] + b + s[off + |b|..]
  }

  /** A run of `n` zero bytes, as written by memset(p, 0, n). */
  function Zeros(n: nat): (r: seq<u8>)
    ensures |r| == n
    ensures forall i :: 0 <= i < n ==> r[i] == 0
  {
    seq(n, _ => 0)
  }

  /** Copies `b` into `a` at offset `off`, leaving every other byte as it was. */
  method Store(a: array<u8>, off: nat, b: seq<u8>)
    requires off + |b| <= a.Length
    modifies a
    ensures a[..] == Splice(old(a[..]), off, b)
  {
    forall i | 0 <= i < |b| {
      a[off + i] := b[i];
    }
  }
}
