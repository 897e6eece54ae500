/** Byte-order primitives of byte_order.h: byte swaps, big-endian loads and
    the stores that write a swapped value into a byte buffer. The source's
    fixed-width unsigned integers are held as bounded mathematical integers;
    for them `x << k` is `x * 2^k` cut to the width, `x >> k` is `x / 2^k`,
    and masking with 0xFF is `% 0x100`. */
module ByteOrder {

  /** An octet, the source's uint8_t. */
  type byte = x: int | 0 <= x < 0x100

  /** uint16_t */
  type u16 = x: int | 0 <= x < 0x1_0000

  /** uint32_t */
  type u32 = x: int | 0 <= x < 0x1_0000_0000

  /** uint64_t */
  type u64 = x: int | 0 <= x < 0x1_0000_0000_0000_0000

  /** Division with remainder by a power of two has one answer: hi and lo are
      the quotient and remainder of hi * m + lo. */
  lemma SplitAt8(hi: nat, lo: nat)
    requires lo < 0x100
    ensures (hi * 0x100 + lo) / 0x100 == hi && (hi * 0x100 + lo) % 0x100 == lo
  {
  }

  lemma SplitAt16(hi: nat, lo: nat)
    requires lo < 0x1_0000
    ensures (hi * 0x1_0000 + lo) / 0x1_0000 == hi && (hi * 0x1_0000 + lo) % 0x1_0000 == lo
  {
  }

  lemma SplitAt32(hi: nat, lo: nat)
    requires lo < 0x1_0000_0000
    ensures (hi * 0x1_0000_0000 + lo) / 0x1_0000_0000 == hi
    ensures (hi * 0x1_0000_0000 + lo) % 0x1_0000_0000 == lo
  {
  }

  // The bytes of a value most significant first (network order) ...

  function BeBytes16(v: u16): (s: seq<byte>)
    ensures |s| == 2
  {
    [v / 0x100, v % 0x100]
  }

  /** The high half's bytes, then the low half's. */
  function BeBytes32(v: u32): (s: seq<byte>)
    ensures |s| == 4
  {
    BeBytes16(v / 0x1_0000) + BeBytes16(v % 0x1_0000)
  }

  function BeBytes64(v: u64): (s: seq<byte>)
    ensures |s| == 8
  {
    BeBytes32(v / 0x1_0000_0000) + BeBytes32(v % 0x1_0000_0000)
  }

  // ... and in the order memcpy copies them out of a variable on a little-endian host.

  function LeBytes16(v: u16): (s: seq<byte>)
    ensures |s| == 2
  {
    [v % 0x100, v / 0x100]
  }

  function LeBytes32(v: u32): (s: seq<byte>)
    ensures |s| == 4
  {
    LeBytes16(v % 0x1_0000) + LeBytes16(v / 0x1_0000)
  }

  function LeBytes64(v: u64): (s: seq<byte>)
    ensures |s| == 8
  {
    LeBytes32(v % 0x1_0000_0000) + LeBytes32(v / 0x1_0000_0000)
  }

  /** endian_be16: the low byte moves up and `x >> 8` brings the high byte
      down. The shifted value is computed in int; it is cut to 16 bits where
      endian_store16 assigns it to a uint16_t. In little-endian memory the
      result lies as the big-endian bytes of x. */
  function Be16(x: u16): (r: u16)
    ensures LeBytes16(r) == BeBytes16(x)
  {
    (x % 0x100) * 0x100 + x / 0x100
  }

  /** endian_be32, which mirrors the four bytes: the halves change places and
      each half is swapped. Be32Terms shows this is the source's shift-and-mask
      expression. */
  function Be32(x: u32): (r: u32)
  {
    Be16(x % 0x1_0000) * 0x1_0000 + Be16(x / 0x1_0000)
  }

  /** endian_be32 term by term: byte k of x moves to byte 3 - k. */
  lemma Be32Terms(x: u32)
    ensures Be32(x) == (x % 0x100) * 0x100_0000 + (x / 0x100 % 0x100) * 0x1_0000
                       + (x / 0x1_0000 % 0x100) * 0x100 + x / 0x100_0000
  {
    Digits32(x);
  }

  /** The four bytes of a uint32_t, read off from its two halves. */
  lemma Digits32(x: u32)
    ensures x / 0x100_0000 == (x / 0x1_0000) / 0x100 && x / 0x1_0000 % 0x100 == (x / 0x1_0000) % 0x100
    ensures x / 0x100 % 0x100 == (x % 0x1_0000) / 0x100 && x % 0x100 == (x % 0x1_0000) % 0x100
  {
    var h, l := x / 0x1_0000, x % 0x1_0000;
    var h1, h0, l1, l0 := h / 0x100, h % 0x100, l / 0x100, l % 0x100;
    assert x == h1 * 0x100_0000 + (h0 * 0x1_0000 + l);
    SplitAt24(h1, h0 * 0x1_0000 + l);
    assert x == (h * 0x100 + l1) * 0x100 + l0;
    SplitAt8(h * 0x100 + l1, l0);
    SplitAt8(h, l1);
  }

  lemma SplitAt24(hi: nat, lo: nat)
    requires lo < 0x100_0000
    ensures (hi * 0x100_0000 + lo) / 0x100_0000 == hi
  {
  }

  /** In little-endian memory endian_be32(x) lies as the big-endian bytes of x. */
  lemma Be32Bytes(x: u32)
    ensures LeBytes32(Be32(x)) == BeBytes32(x)
  {
    var h, l := x / 0x1_0000, x % 0x1_0000;
    var y := Be32(x);
    SplitAt16(Be16(l), Be16(h));
    assert y % 0x1_0000 == Be16(h) && y / 0x1_0000 == Be16(l);
    assert LeBytes32(y) == LeBytes16(Be16(h)) + LeBytes16(Be16(l));
  }

  /** endian_be64, which mirrors the eight bytes: the halves change places and
      each half is mirrored. Be64Terms shows this is the source's expression. */
  function Be64(x: u64): (r: u64)
  {
    Be32(x % 0x1_0000_0000) * 0x1_0000_0000 + Be32(x / 0x1_0000_0000)
  }

  /** endian_be64 term by term: byte k of x moves to byte 7 - k. */
  lemma Be64Terms(x: u64)
    ensures var h, l := x / 0x1_0000_0000, x % 0x1_0000_0000;
      Be64(x) == (l % 0x100) * 0x100_0000_0000_0000 + (l / 0x100 % 0x100) * 0x1_0000_0000_0000
                 + (l / 0x1_0000 % 0x100) * 0x100_0000_0000 + (l / 0x100_0000) * 0x1_0000_0000
                 + (h % 0x100) * 0x100_0000 + (h / 0x100 % 0x100) * 0x1_0000
                 + (h / 0x1_0000 % 0x100) * 0x100 + h / 0x100_0000
  {
    Be32Terms(x % 0x1_0000_0000);
    Be32Terms(x / 0x1_0000_0000);
  }

  lemma Be64Bytes(x: u64)
    ensures LeBytes64(Be64(x)) == BeBytes64(x)
  {
    var h, l := x / 0x1_0000_0000, x % 0x1_0000_0000;
    var y := Be64(x);
    SplitAt32(Be32(l), Be32(h));
    assert y % 0x1_0000_0000 == Be32(h) && y / 0x1_0000_0000 == Be32(l);
    Be32Bytes(l);
    Be32Bytes(h);
    assert LeBytes64(y) == LeBytes32(Be32(h)) + LeBytes32(Be32(l));
  }

  /** Each swap undoes itself. */
  lemma BeInvolutive(x16: u16, x32: u32, x64: u64)
    ensures Be16(Be16(x16)) == x16
    ensures Be32(Be32(x32)) == x32
    ensures Be64(Be64(x64)) == x64
  {
    Be16Involutive(x16);
    Be32Involutive(x32);
    var h, l := x64 / 0x1_0000_0000, x64 % 0x1_0000_0000;
    var y := Be64(x64);
    SplitAt32(Be32(l), Be32(h));
    assert y / 0x1_0000_0000 == Be32(l) && y % 0x1_0000_0000 == Be32(h);
    Be32Involutive(l);
    Be32Involutive(h);
    assert Be64(y) == h * 0x1_0000_0000 + l;
  }

  lemma Be16Involutive(x: u16)
    ensures Be16(Be16(x)) == x
  {
    SplitAt16(0, 0);
    var y := Be16(x);
    assert y % 0x100 == x / 0x100 && y / 0x100 == x % 0x100;
  }

  lemma Be32Involutive(x: u32)
    ensures Be32(Be32(x)) == x
  {
    var h, l := x / 0x1_0000, x % 0x1_0000;
    var y := Be32(x);
    SplitAt16(Be16(l), Be16(h));
    assert y / 0x1_0000 == Be16(l) && y % 0x1_0000 == Be16(h);
    Be16Involutive(l);
    Be16Involutive(h);
    assert Be32(y) == h * 0x1_0000 + l;
  }

  /** endian_load16: from[0] is the high byte. */
  function Load16(from: seq<byte>): (r: u16)
    requires |from| >= 2
    ensures BeBytes16(r) == from[..2]
  {
    from[0] as int * 0x100 + from[1]
  }

  /** endian_load32: the bytes combined most significant first, which is the
      first two bytes' value above the next two's. */
  function Load32(from: seq<byte>): (r: u32)
    requires |from| >= 4
  {
    Load16(from) * 0x1_0000 + Load16(from[2..])
  }

  /** endian_load64 */
  function Load64(from: seq<byte>): (r: u64)
    requires |from| >= 8
  {
    Load32(from) * 0x1_0000_0000 + Load32(from[4..])
  }

  /** endian_load32 and endian_load64 term by term: byte k is shifted up by
      8 * (3 - k), respectively 8 * (7 - k), bits. */
  lemma LoadTerms(from: seq<byte>)
    requires |from| >= 8
    ensures Load32(from) == from[0] as int * 0x100_0000 + from[1] as int * 0x1_0000 + from[2] as int * 0x100 + from[3]
    ensures Load64(from) ==
        from[0] as int * 0x100_0000_0000_0000 + from[1] as int * 0x1_0000_0000_0000
      + from[2] as int * 0x100_0000_0000 + from[3] as int * 0x1_0000_0000
      + from[4] as int * 0x100_0000 + from[5] as int * 0x1_0000 + from[6] as int * 0x100 + from[7]
  {
    assert from[4..][2..] == from[6..];
  }

  /** The loads read back network-order bytes: the bytes of a loaded value are
      the bytes it was loaded from. */
  lemma LoadBytes(from: seq<byte>)
    requires |from| >= 8
    ensures BeBytes32(Load32(from)) == from[..4]
    ensures BeBytes64(Load64(from)) == from[..8]
  {
    SplitAt16(Load16(from), Load16(from[2..]));
    SplitAt16(Load16(from[4..]), Load16(from[6..]));
    SplitAt32(Load32(from), Load32(from[4..]));
    assert from[2..][..2] == from[2..4] && from[4..][..4] == from[4..8];
    assert from[4..][2..] == from[6..] && from[6..][..2] == from[6..8];
  }

  /** Loading the network-order bytes of a value gives the value back. */
  lemma LoadOfBeBytes(x16: u16, x32: u32, x64: u64)
    ensures Load16(BeBytes16(x16)) == x16
    ensures Load32(BeBytes32(x32)) == x32
    ensures Load64(BeBytes64(x64)) == x64
  {
    LoadOfBeBytes32(x32);
    var s := BeBytes64(x64);
    var h, l := x64 / 0x1_0000_0000, x64 % 0x1_0000_0000;
    LoadOfBeBytes32(h);
    LoadOfBeBytes32(l);
    assert s[..4] == BeBytes32(h) && s[4..] == BeBytes32(l);
  }

  lemma LoadOfBeBytes32(x: u32)
    ensures Load32(BeBytes32(x)) == x
  {
    var s := BeBytes32(x);
    assert s[..2] == BeBytes16(x / 0x1_0000) && s[2..] == BeBytes16(x % 0x1_0000);
  }

  /** memcpy: the bytes of src replace to[at .. at + |src|] and nothing else changes. */
  method CopyInto(to: array<byte>, at: nat, src: seq<byte>)
    requires at + |src| <= to.Length
    modifies to
    ensures to[at..at + |src|] == src
    ensures forall k :: 0 <= k < to.Length && !(at <= k < at + |src|) ==> to[k] == old(to[k])
    ensures to[..at + |src|] == old(to[..at]) + src
  {
    ghost var before := to[..at];
    var i := 0;
    while i < |src|
      invariant 0 <= i <= |src|
      invariant forall k :: at <= k < at + i ==> to[k] == src[k - at]
      invariant forall k :: 0 <= k < to.Length && !(at <= k < at + i) ==> to[k] == old(to[k])
    {
      to[at + i] := src[i];
      i := i + 1;
    }
    assert to[..at] == before;
    assert to[..at + |src|] == to[..at] + to[at..at + |src|];
  }

  /** A load reads only the bytes it combines. */
  lemma LoadReadsPrefix(w: seq<byte>, n: nat)
    requires n in {2, 4, 8} && |w| >= n
    ensures n == 2 ==> Load16(w) == Load16(w[..n])
    ensures n == 4 ==> Load32(w) == Load32(w[..n])
    ensures n == 8 ==> Load64(w) == Load64(w[..n])
  {
    if n == 4 {
      assert w[..4][2..] == w[2..][..2];
    } else if n == 8 {
      LoadTerms(w);
      LoadTerms(w[..8]);
    }
  }

  /** endian_store16: memcpy of endian_be16(num) on a little-endian host,
      which leaves num in network order. */
  method Store16(to: array<byte>, at: nat, num: u16)
    requires at + 2 <= to.Length
    modifies to
    ensures to[at..at + 2] == BeBytes16(num)
    ensures forall k :: 0 <= k < to.Length && !(at <= k < at + 2) ==> to[k] == old(to[k])
    ensures Load16(to[at..]) == num
  {
    var val := Be16(num);
    CopyInto(to, at, LeBytes16(val));
    LoadReadsPrefix(to[at..], 2);
    assert to[at..][..2] == to[at..at + 2];
  }

  /** endian_store32 */
  method Store32(to: array<byte>, at: nat, num: u32)
    requires at + 4 <= to.Length
    modifies to
    ensures to[at..at + 4] == BeBytes32(num)
    ensures forall k :: 0 <= k < to.Length && !(at <= k < at + 4) ==> to[k] == old(to[k])
    ensures Load32(to[at..]) == num
  {
    var val := Be32(num);
    Be32Bytes(num);
    CopyInto(to, at, LeBytes32(val));
    LoadOfBeBytes32(num);
    LoadReadsPrefix(to[at..], 4);
    assert to[at..][..4] == to[at..at + 4];
  }

  /** endian_store64 */
  method Store64(to: array<byte>, at: nat, num: u64)
    requires at + 8 <= to.Length
    modifies to
    ensures to[at..at + 8] == BeBytes64(num)
    ensures forall k :: 0 <= k < to.Length && !(at <= k < at + 8) ==> to[k] == old(to[k])
    ensures Load64(to[at..]) == num
  {
    var val := Be64(num);
    Be64Bytes(num);
    CopyInto(to, at, LeBytes64(val));
    LoadOfBeBytes(0, 0, num);
    LoadReadsPrefix(to[at..], 8);
    assert to[at..][..8] == to[at..at + 8];
  }

  /** The values the sources' comments and tests name: `00 01` loads as 1 and
      0xBEEF goes out as `BE EF`. */
  lemma ByteOrderExamples()
    ensures Load16([0x00, 0x01]) == 1
    ensures BeBytes16(0xBEEF) == [0xBE, 0xEF]
  {
  }
}
