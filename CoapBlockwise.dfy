/** Block1 / Block2 option values (RFC 7959 section 2.2): a block number NUM,
    a more-flag M and a size exponent SZX packed into 1 to 3 bytes. The packer
    coap_make_option_blockwise and the three getters. */
module CoapBlockwise {
  import opened ByteOrder
  import opened CoapTypes

  /** The unsigned integer an option value of any length stands for, most
      significant byte first (the uint option format of RFC 7252 section 3.2). */
  function UintValue(s: seq<byte>): nat
  {
    if s == [] then 0 else UintValue(s[..|s| - 1]) * 0x100 + s[|s| - 1]
  }

  /** The unsigned integer of one, two and three bytes. */
  lemma UintValueShort(s: seq<byte>)
    requires 1 <= |s| <= 3
    ensures |s| == 1 ==> UintValue(s) == s[0]
    ensures |s| == 2 ==> UintValue(s) == s[0] as int * 0x100 + s[1]
    ensures |s| == 3 ==> UintValue(s) == s[0] as int * 0x1_0000 + s[1] as int * 0x100 + s[2]
  {
    assert UintValue(s[..1]) == s[0] by {
      assert s[..1][..0] == [];
    }
    if |s| >= 2 {
      assert s[..2][..1] == s[..1];
      assert UintValue(s[..2]) == s[0] as int * 0x100 + s[1];
    }
    if |s| == 3 {
      assert s[..2] == s[..|s| - 1];
    }
    if |s| == 2 {
      assert s[..1] == s[..|s| - 1];
    }
  }

  /** Division by 2^12 and by 2^20 with remainder has one answer. */
  lemma DivModUnique(n: int, q: int, r: int, s: int)
    requires 0 <= r < 0x1000 && n == q * 0x1000 + r
    requires 0 <= s < 0x10_0000 && n == (q / 0x100) * 0x10_0000 + s
    ensures n / 0x1000 == q && n % 0x1000 == r
    ensures n / 0x10_0000 == q / 0x100 && n % 0x10_0000 == s
  {
  }

  /** The three fields of a number below 2^20 that the packer writes: bits
      19..12, bits 11..4 and bits 3..0. */
  lemma NumFields(n: nat)
    ensures n % 0x10_0000 == ((n / 0x1000) % 0x100) * 0x1000 + ((n / 0x10) % 0x100) * 0x10 + n % 0x10
    ensures n < 0x1000 ==> n == ((n / 0x10) % 0x100) * 0x10 + n % 0x10
  {
    var q1, r0 := n / 0x10, n % 0x10;
    var q2, r1 := q1 / 0x100, q1 % 0x100;
    var q3, r2 := q2 / 0x100, q2 % 0x100;
    assert n == q2 * 0x1000 + (r1 * 0x10 + r0);
    assert n == q3 * 0x10_0000 + (r2 * 0x1000 + r1 * 0x10 + r0);
    DivModUnique(n, q2, r1 * 0x10 + r0, r2 * 0x1000 + r1 * 0x10 + r0);
  }

  /** The range check on NUM: the source's `num > 1048576`, which lets 2^20
      through, or the 20 bits RFC 7959 section 2.2 gives NUM. */
  datatype NumBound = AsWrittenBound | IntendedBound

  /** The largest block number the packer accepts. */
  function MaxNum(b: NumBound): nat
  {
    if b == AsWrittenBound then 0x10_0000 else 0x0F_FFFF
  }

  /** The low nibble of the last byte: `m << 3 | (szx & 0x07)`. */
  function Flags(szx: int, m: bool): (n: byte)
    requires 0 <= szx <= 6
    ensures n < 0x10
  {
    (if m then 8 else 0) + szx
  }

  /** The bytes coap_make_option_blockwise writes into the option buffer; the
      empty sequence when it rejects its arguments and returns 0. */
  function BlockwiseBytes(szx: int, m: bool, num: u32, b: NumBound): (r: seq<byte>)
  {
    if szx > 6 || szx < 0 || num > MaxNum(b) then []
    else if num < 16 then [(num % 0x10) * 0x10 + Flags(szx, m)]
    else if num < 4096 then [(num / 0x10) % 0x100, (num % 0x10) * 0x10 + Flags(szx, m)]
    else [(num / 0x1000) % 0x100, (num / 0x10) % 0x100, (num % 0x10) * 0x10 + Flags(szx, m)]
  }

  /** What the packer promises: it rejects exactly a size exponent outside
      0..6 or a block number above the bound; otherwise it writes 1, 2 or 3
      bytes as NUM needs 4, 12 or 20 bits, and the value they form is NUM
      (modulo 2^20), then M, then SZX. */
  lemma BlockwiseLayout(szx: int, m: bool, num: u32, b: NumBound)
    ensures var r := BlockwiseBytes(szx, m, num, b);
      && (r == [] <==> !(0 <= szx <= 6 && num <= MaxNum(b)))
      && (r != [] ==> (|r| == 1 <==> num < 16) && (|r| == 2 <==> 16 <= num < 4096) && (|r| == 3 <==> 4096 <= num))
      && (r != [] ==> UintValue(r) == (num % 0x10_0000) * 0x10 + (if m then 8 else 0) + szx)
  {
    var r := BlockwiseBytes(szx, m, num, b);
    if r != [] {
      UintValueShort(r);
      NumFields(num);
    }
  }

  /** coap_make_option_blockwise: writes the option value into buf and returns
      its length, 0 for rejected arguments; buf must hold 1, 2 or 3 bytes as
      NUM needs them. */
  method MakeOptionBlockwise(buf: array<byte>, szx: int, m: bool, num: u32, b: NumBound) returns (len: byte)
    requires buf.Length >= |BlockwiseBytes(szx, m, num, b)|
    modifies buf
    ensures len == |BlockwiseBytes(szx, m, num, b)|
    ensures buf[..len] == BlockwiseBytes(szx, m, num, b)
    ensures buf[len..] == old(buf[len..])
  {
    if szx > 6 || szx < 0 || num > MaxNum(b) {
      return 0;
    }
    var last := (num % 0x10) * 0x10 + Flags(szx, m);
    if num < 16 {
      buf[0] := last;
      len := 1;
    } else if num < 4096 {
      buf[0] := (num / 0x10) % 0x100;
      buf[1] := last;
      len := 2;
    } else {
      buf[0] := (num / 0x1000) % 0x100;
      buf[1] := (num / 0x10) % 0x100;
      buf[2] := last;
      len := 3;
    }
  }

  /** coap_option_blockwise_get_szx: the low three bits of the last byte. */
  function GetSzx(o: CoapOption): (szx: int)
    requires |o.value| >= 1
    ensures 0 <= szx < 8
    ensures szx == UintValue(o.value) % 8
  {
    o.value[|o.value| - 1] % 8
  }

  /** coap_option_blockwise_get_m: bit 3 of the last byte. */
  function GetM(o: CoapOption): (m: bool)
    requires |o.value| >= 1
    ensures m <==> (UintValue(o.value) / 8) % 2 == 1
  {
    (o.value[|o.value| - 1] / 8) % 2 == 1
  }

  /** The C `&` of two unsigned integers, bit by bit from the lowest. */
  function BitAnd(a: nat, b: nat): nat
  {
    if a == 0 || b == 0 then 0
    else 2 * BitAnd(a / 2, b / 2) + (if a % 2 == 1 && b % 2 == 1 then 1 else 0)
  }

  /** A multiple of 2^k and a number below 2^k have no set bit in common. */
  lemma {:induction false} BitAndApart(c: nat, b: nat, k: nat)
    requires b < Pow2(k)
    ensures BitAnd(c * Pow2(k), b) == 0
    decreases k
  {
    if k > 0 && c != 0 && b != 0 {
      var half := c * Pow2(k - 1);
      assert c * Pow2(k) == 2 * half;
      BitAndApart(c, b / 2, k - 1);
      assert BitAnd(2 * half, b) == 2 * BitAnd(half, b / 2);
    }
  }

  /** The shifts by 8 and 16 bits as multipliers. */
  lemma Pow2Bytes()
    ensures Pow2(8) == 0x100 && Pow2(16) == 0x1_0000
  {
    assert Pow2(2) == 4;
    assert Pow2(4) == 0x10;
    assert Pow2(6) == 0x40;
    assert Pow2(8) == 0x100;
    assert Pow2(10) == 0x400;
    assert Pow2(12) == 0x1000;
    assert Pow2(14) == 0x4000;
  }

  /** coap_option_blockwise_get_num as written: the bytes are combined with
      `&` where `|` was meant, with the shifts of the text. */
  function GetNumAsWritten(o: CoapOption): (num: u32)
    requires |o.value| >= 1
    ensures |o.value| == 1 ==> num == UintValue(o.value) / 0x10
  {
    var p := o.value;
    UintValueShort(p[..1]);
    if |p| == 1 then p[0] / 0x10
    else if |p| == 2 then BitAnd(p[0] as int * 0x100, p[1] / 0x10) % 0x1_0000_0000
    else BitAnd(BitAnd(p[0] as int * 0x1_0000, p[1] as int * 0x100), p[2] / 0x10) % 0x1_0000_0000
  }

  /** The getter as written returns 0 for every value of two or more bytes:
      the masks it ands together never share a bit. */
  lemma GetNumAsWrittenDropsNum(o: CoapOption)
    requires |o.value| >= 2
    ensures GetNumAsWritten(o) == 0
  {
    var p := o.value;
    Pow2Bytes();
    if |p| == 2 {
      BitAndApart(p[0], p[1] / 0x10, 8);
    } else {
      BitAndApart(p[0], p[1] as int * 0x100, 16);
    }
  }

  /** coap_option_blockwise_get_num as RFC 7959 section 2.2 defines NUM: the
      value of the first (at most three) bytes without its low four bits,
      `(p0 << 4) | (p1 >> 4)` and `(p0 << 12) | (p1 << 4) | (p2 >> 4)`. */
  function BlockNum(o: CoapOption): (num: u32)
    requires |o.value| >= 1
    ensures num < 0x10_0000
    ensures num == UintValue(o.value[..if |o.value| < 3 then |o.value| else 3]) / 0x10
  {
    var p := o.value;
    var n := if |p| < 3 then |p| else 3;
    UintValueShort(p[..n]);
    if |p| == 1 then p[0] / 0x10
    else if |p| == 2 then p[0] as int * 0x10 + p[1] / 0x10
    else p[0] as int * 0x1000 + p[1] as int * 0x10 + p[2] / 0x10
  }

  /** The low nibble below a four-bit field keeps SZX in its low three bits
      and M in bit 3. */
  lemma FlagsOfLastByte(x: int, szx: int, m: bool)
    requires 0 <= x < 0x10 && 0 <= szx <= 6
    ensures (x * 0x10 + Flags(szx, m)) % 8 == szx
    ensures ((x * 0x10 + Flags(szx, m)) / 8) % 2 == 1 <==> m
  {
    var f := Flags(szx, m);
    assert x * 0x10 + f == (x * 2 + (if m then 1 else 0)) * 8 + szx;
  }

  /** The NUM field the corrected getter reads from the packed bytes. */
  lemma NumOfBytes(szx: int, m: bool, num: u32, b: NumBound)
    requires 0 <= szx <= 6 && num <= MaxNum(IntendedBound)
    ensures var r := BlockwiseBytes(szx, m, num, b);
      r != [] && BlockNum(CoapOption(COAP_OPTION_BLOCK_2, r)) == num
  {
    var r := BlockwiseBytes(szx, m, num, b);
    var last := (num % 0x10) * 0x10 + Flags(szx, m);
    assert last / 0x10 == num % 0x10;
    var p := CoapOption(COAP_OPTION_BLOCK_2, r).value;
    NumFields(num);
    if num < 16 {
      assert p == [last];
    } else if num < 4096 {
      assert p == [(num / 0x10) % 0x100, last];
      assert BlockNum(CoapOption(COAP_OPTION_BLOCK_2, r)) == p[0] as int * 0x10 + last / 0x10;
    } else {
      assert p == [(num / 0x1000) % 0x100, (num / 0x10) % 0x100, last];
      assert BlockNum(CoapOption(COAP_OPTION_BLOCK_2, r)) == p[0] as int * 0x1000 + p[1] as int * 0x10 + last / 0x10;
    }
  }

  /** Each getter reads back what the packer wrote: SZX, M and, with
      the 20-bit bound, NUM for every accepted block number. */
  lemma BlockwiseRoundTrip(szx: int, m: bool, num: u32, b: NumBound)
    requires 0 <= szx <= 6 && num <= MaxNum(IntendedBound)
    ensures var r := BlockwiseBytes(szx, m, num, b);
      && r != []
      && GetSzx(CoapOption(COAP_OPTION_BLOCK_2, r)) == szx
      && GetM(CoapOption(COAP_OPTION_BLOCK_2, r)) == m
      && BlockNum(CoapOption(COAP_OPTION_BLOCK_2, r)) == num
  {
    var r := BlockwiseBytes(szx, m, num, b);
    assert r[|r| - 1] == (num % 0x10) * 0x10 + Flags(szx, m);
    FlagsOfLastByte(num % 0x10, szx, m);
    NumOfBytes(szx, m, num, b);
  }

  /** The getter as written reads back the block number only when it fits in
      four bits, i.e. in a one-byte value. */
  lemma AsWrittenNumRoundTrip(szx: int, m: bool, num: u32, b: NumBound)
    requires 0 <= szx <= 6 && num <= MaxNum(IntendedBound)
    ensures var o := CoapOption(COAP_OPTION_BLOCK_2, BlockwiseBytes(szx, m, num, b));
      GetNumAsWritten(o) == num <==> num < 16
  {
    var r := BlockwiseBytes(szx, m, num, b);
    BlockwiseLayout(szx, m, num, b);
    if 16 <= num {
      GetNumAsWrittenDropsNum(CoapOption(COAP_OPTION_BLOCK_2, r));
    }
  }

  /** With the source's bound, 2^20 is accepted and written as three bytes
      whose NUM field is 0; the 20-bit bound rejects it. */
  lemma BoundaryNumAccepted(szx: int, m: bool)
    requires 0 <= szx <= 6
    ensures BlockwiseBytes(szx, m, 0x10_0000, AsWrittenBound) == [0, 0, Flags(szx, m)]
    ensures BlockNum(CoapOption(COAP_OPTION_BLOCK_2, [0, 0, Flags(szx, m)])) == 0
    ensures BlockwiseBytes(szx, m, 0x10_0000, IntendedBound) == []
  {
  }

  /** The block values the unit tests expect: a 256-byte block with M set for
      block numbers 6, 1337 and 987654, and block 0 with or without M. */
  lemma BlockwiseExamples(b: NumBound)
    ensures BlockwiseBytes(COAP_BLOCKSIZE_16, false, 0, b) == [0x00]
    ensures BlockwiseBytes(COAP_BLOCKSIZE_256, false, 0, b) == [0x04]
    ensures BlockwiseBytes(COAP_BLOCKSIZE_256, true, 0, b) == [0x0C]
    ensures BlockwiseBytes(COAP_BLOCKSIZE_256, true, 6, b) == [0x6C]
    ensures BlockwiseBytes(COAP_BLOCKSIZE_256, true, 1337, b) == [0x53, 0x9C]
    ensures BlockwiseBytes(COAP_BLOCKSIZE_256, true, 987654, b) == [0xF1, 0x20, 0x6C]
  {
  }

  /** The getter test: a 16-byte block 6 with M set reads back with every
      getter, the as-written one included; block 1337 shows the as-written
      getter losing NUM. */
  lemma GetterExamples()
    ensures var o := CoapOption(COAP_OPTION_BLOCK_2, BlockwiseBytes(COAP_BLOCKSIZE_16, true, 6, AsWrittenBound));
      GetSzx(o) == COAP_BLOCKSIZE_16 && GetM(o) && GetNumAsWritten(o) == 6 && BlockNum(o) == 6
    ensures var o := CoapOption(COAP_OPTION_BLOCK_2, [0x53, 0x9C]);
      GetNumAsWritten(o) == 0 && BlockNum(o) == 1337
  {
    assert BlockwiseBytes(COAP_BLOCKSIZE_16, true, 6, AsWrittenBound) == [0x68];
    GetNumAsWrittenDropsNum(CoapOption(COAP_OPTION_BLOCK_2, [0x53, 0x9C]));
  }
}
