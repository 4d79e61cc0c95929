/** Bytes in memory: little-endian fields, in-place stores and 4-byte alignment. */
module Bytes {
  newtype byte = x: int | 0 <= x < 256

  const U16_LIMIT := 0x1_0000
  const U31_LIMIT := 0x8000_0000
  const U32_LIMIT := 0x1_0000_0000

  datatype Option<+T> = None | Some(value: T)

  /** NLMSG_ALIGN and RTA_ALIGN: round up to a multiple of four. */
  function Align4(n: int): (r: int)
    ensures n <= r < n + 4 && r % 4 == 0
  {
    (n + 3) / 4 * 4
  }

  lemma Words(n: int)
    ensures Align4(n) == (n + 3) / 4 * 4
  {
  }

  /** The length of a netlink message header and of an attribute header. */
  const NLMSG_HDR := 16
  const RTA_HDR := 4

  /** NLMSG_ALIGN of an unsigned 32-bit value, whose addition wraps around. */
  function AlignU32(n: int): (r: int)
    requires 0 <= n < U32_LIMIT
    ensures 0 <= r < U32_LIMIT && r % 4 == 0
    ensures n <= U32_LIMIT - 4 ==> r == Align4(n)
    ensures n > U32_LIMIT - 4 ==> r == 0
  {
    (n + 3) % U32_LIMIT / 4 * 4
  }

  /** The value of a 32-bit pattern read as a C int. */
  function ToInt32(n: int): (r: int)
    ensures -U31_LIMIT <= r < U31_LIMIT
    ensures -U31_LIMIT <= n < U31_LIMIT ==> r == n
  {
    var m := n % U32_LIMIT;
    if m < U31_LIMIT then m else m - U32_LIMIT
  }

  /** The value of a C int converted to unsigned. */
  function ToUint32(n: int): (r: int)
    ensures 0 <= r < U32_LIMIT
    ensures 0 <= n < U32_LIMIT ==> r == n
  {
    n % U32_LIMIT
  }

  function U16(s: seq<byte>, i: nat): (v: int)
    requires i + 2 <= |s|
    ensures 0 <= v < U16_LIMIT
  {
    s[i] as int + 256 * s[i + 1] as int
  }

  function U32(s: seq<byte>, i: nat): (v: int)
    requires i + 4 <= |s|
    ensures 0 <= v < U32_LIMIT
  {
    U16(s, i) + U16_LIMIT * U16(s, i + 2)
  }

  /** A field read straight from a buffer. */
  function Read16(buf: array<byte>, i: nat): (v: int)
    requires i + 2 <= buf.Length
    reads buf
    ensures v == U16(buf[..], i)
  {
    buf[i] as int + 256 * buf[i + 1] as int
  }

  function Read32(buf: array<byte>, i: nat): (v: int)
    requires i + 4 <= buf.Length
    reads buf
    ensures v == U32(buf[..], i)
  {
    Read16(buf, i) + U16_LIMIT * Read16(buf, i + 2)
  }

  function Le16(v: int): (s: seq<byte>)
    requires 0 <= v < U16_LIMIT
    ensures |s| == 2 && U16(s, 0) == v
  {
    [(v % 256) as byte, (v / 256) as byte]
  }

  function Le32(v: int): (s: seq<byte>)
    requires 0 <= v < U32_LIMIT
    ensures |s| == 4 && U32(s, 0) == v
  {
    var lo, hi := Le16(v % U16_LIMIT), Le16(v / U16_LIMIT);
    [lo[0], lo[1], hi[0], hi[1]]
  }

  /** The bytes of a field are those of its value. */
  lemma FieldBytes(s: seq<byte>, i: nat)
    ensures i + 2 <= |s| ==> s[i..i + 2] == Le16(U16(s, i))
    ensures i + 4 <= |s| ==> s[i..i + 4] == Le32(U32(s, i))
  {
    hide U16, Le16, Le32;
    if i + 4 <= |s| {
      HalfBytes(s, i);
      HalfBytes(s, i + 2);
      Halves(U16(s, i), U16(s, i + 2));
      assert s[i..i + 4] == s[i..i + 2] + s[i + 2..i + 4];
    } else if i + 2 <= |s| {
      HalfBytes(s, i);
    }
  }

  lemma HalfBytes(s: seq<byte>, i: nat)
    requires i + 2 <= |s|
    ensures s[i..i + 2] == Le16(U16(s, i))
  {
  }

  lemma Halves(lo: int, hi: int)
    requires 0 <= lo < U16_LIMIT && 0 <= hi < U16_LIMIT
    ensures Le32(lo + U16_LIMIT * hi) == Le16(lo) + Le16(hi)
  {
    hide Le16;
    assert (lo + U16_LIMIT * hi) % U16_LIMIT == lo && (lo + U16_LIMIT * hi) / U16_LIMIT == hi;
  }

  /** The contents of a buffer after `b` has been stored at offset `off`. */
  function Splice(s: seq<byte>, off: nat, b: seq<byte>): (r: seq<byte>)
    requires off + |b| <= |s|
    ensures |r| == |s|
    ensures forall i :: 0 <= i < |s| ==> r[i] == if off <= i < off + |b| then b[i - off] else s[i]
  {
    seq(|s|, i requires 0 <= i < |s| => if off <= i < off + |b| then b[i - off] else s[i])
  }

  /** Two stores next to each other are one store. */
  lemma SpliceTwice(s: seq<byte>, off: nat, a: seq<byte>, b: seq<byte>)
    requires off + |a| + |b| <= |s|
    ensures Splice(Splice(s, off, a), off + |a|, b) == Splice(s, off, a + b)
  {
  }

  /** The `len` bytes at address `x` of one memory are those at address `y` of another. */
  ghost predicate SameBytes(s: seq<byte>, x: nat, s': seq<byte>, y: nat, len: int) {
    && x + len <= |s| && y + len <= |s'|
    && forall i :: x <= i < x + len ==> s[i] == s'[i - x + y]
  }

  lemma FieldOf(s: seq<byte>, b: seq<byte>)
    requires |b| <= |s| && forall k :: 0 <= k < |b| ==> s[k] == b[k]
    ensures |b| >= 2 ==> U16(s, 0) == U16(b, 0)
    ensures |b| >= 4 ==> U32(s, 0) == U32(b, 0)
  {
  }

  lemma FieldAt(s: seq<byte>, i: nat, b: seq<byte>)
    requires i + |b| <= |s| && s[i..i + |b|] == b
    ensures |b| >= 2 ==> U16(s, i) == U16(b, 0)
    ensures |b| >= 4 ==> U32(s, i) == U32(b, 0)
  {
    assert forall k :: 0 <= k < |b| ==> s[i + k] == b[k];
  }

  lemma Regroup<T>(a: seq<T>, x: T, b: seq<T>)
    ensures (a + [x]) + b == a + ([x] + b)
  {
  }

  method Put16(buf: array<byte>, off: nat, v: int)
    requires off + 2 <= buf.Length && 0 <= v < U16_LIMIT
    modifies buf
    ensures buf[..] == Splice(old(buf[..]), off, Le16(v))
  {
    buf[off] := (v % 256) as byte;
    buf[off + 1] := (v / 256) as byte;
  }

  method Put32(buf: array<byte>, off: nat, v: int)
    requires off + 4 <= buf.Length && 0 <= v < U32_LIMIT
    modifies buf
    ensures buf[..] == Splice(old(buf[..]), off, Le32(v))
  {
    Put16(buf, off, v % U16_LIMIT);
    Put16(buf, off + 2, v / U16_LIMIT);
    SpliceTwice(old(buf[..]), off, Le16(v % U16_LIMIT), Le16(v / U16_LIMIT));
  }

  /** memcpy of `data` into the buffer. */
  method Copy(buf: array<byte>, off: nat, data: seq<byte>)
    requires off + |data| <= buf.Length
    modifies buf
    ensures buf[..] == Splice(old(buf[..]), off, data)
  {
    for k := 0 to |data|
      invariant forall i :: 0 <= i < buf.Length ==>
        buf[i] == if off <= i < off + k then data[i - off] else old(buf[i])
    {
      buf[off + k] := data[k];
    }
  }
}
