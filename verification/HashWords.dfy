/** 32-bit words, the functions on them of sections 3.2 and 4.1.2 of FIPS 180-4, and their bytes. */
module HashWords {
  import opened MessageBlocks

  type Word = bv32

  // ---------------------------------------------------------------- the functions of section 4.1.2

  function Plus(x: Word, y: Word): Word { x + y }

  function Ch(x: Word, y: Word, z: Word): Word { (x & y) ^ (!x & z) }

  function Maj(x: Word, y: Word, z: Word): Word { (x & y) ^ (x & z) ^ (y & z) }

  /** The sigma functions, with the rotations spelled out as shifts both ways. */
  function BigSigma0(x: Word): Word { ((x >> 2) | (x << 30)) ^ ((x >> 13) | (x << 19)) ^ ((x >> 22) | (x << 10)) }

  function BigSigma1(x: Word): Word { ((x >> 6) | (x << 26)) ^ ((x >> 11) | (x << 21)) ^ ((x >> 25) | (x << 7)) }

  function SmallSigma0(x: Word): Word { ((x >> 7) | (x << 25)) ^ ((x >> 18) | (x << 14)) ^ (x >> 3) }

  function SmallSigma1(x: Word): Word { ((x >> 17) | (x << 15)) ^ ((x >> 19) | (x << 13)) ^ (x >> 10) }

  // ---------------------------------------------------------------- what the functions do to bits

  /** Ch takes its bits from y where x is set and from z elsewhere. */
  lemma ChBits(x: Word, y: Word, z: Word)
    ensures Ch(x, y, z) & x == y & x && Ch(x, y, z) & !x == z & !x
  {
  }

  /** Each bit of Maj is the one that at least two of the arguments have. */
  lemma MajFirstTwo(x: Word, y: Word, z: Word)
    ensures Maj(x, y, z) & !(x ^ y) == x & !(x ^ y)
  {
  }

  lemma MajOuterTwo(x: Word, y: Word, z: Word)
    ensures Maj(x, y, z) & !(x ^ z) == x & !(x ^ z)
  {
  }

  lemma MajLastTwo(x: Word, y: Word, z: Word)
    ensures Maj(x, y, z) & !(y ^ z) == y & !(y ^ z)
  {
  }

  lemma BigSigma0Spelled(x: Word, i: bv6)
    requires i < 32
    ensures ((((x >> 2) | (x << 30)) ^ ((x >> 13) | (x << 19)) ^ ((x >> 22) | (x << 10))) >> i) & 1
         == ((x >> ((i + 2) % 32)) & 1) ^ ((x >> ((i + 13) % 32)) & 1) ^ ((x >> ((i + 22) % 32)) & 1)
  {
  }

  /** Which three bits each bit of BigSigma0 is the sum modulo two of; bit i of x is (x >> i) & 1. */
  lemma BigSigma0Bits(x: Word, i: bv6)
    requires i < 32
    ensures (BigSigma0(x) >> i) & 1
         == ((x >> ((i + 2) % 32)) & 1) ^ ((x >> ((i + 13) % 32)) & 1) ^ ((x >> ((i + 22) % 32)) & 1)
  {
    BigSigma0Spelled(x, i);
  }

  lemma BigSigma1Spelled(x: Word, i: bv6)
    requires i < 32
    ensures ((((x >> 6) | (x << 26)) ^ ((x >> 11) | (x << 21)) ^ ((x >> 25) | (x << 7))) >> i) & 1
         == ((x >> ((i + 6) % 32)) & 1) ^ ((x >> ((i + 11) % 32)) & 1) ^ ((x >> ((i + 25) % 32)) & 1)
  {
  }

  /** Which three bits each bit of BigSigma1 is the sum modulo two of. */
  lemma BigSigma1Bits(x: Word, i: bv6)
    requires i < 32
    ensures (BigSigma1(x) >> i) & 1
         == ((x >> ((i + 6) % 32)) & 1) ^ ((x >> ((i + 11) % 32)) & 1) ^ ((x >> ((i + 25) % 32)) & 1)
  {
    BigSigma1Spelled(x, i);
  }

  lemma SmallSigma0LowSpelled(x: Word, i: bv6)
    requires i < 29
    ensures ((((x >> 7) | (x << 25)) ^ ((x >> 18) | (x << 14)) ^ (x >> 3)) >> i) & 1
         == ((x >> ((i + 7) % 32)) & 1) ^ ((x >> ((i + 18) % 32)) & 1) ^ ((x >> (i + 3)) & 1)
  {
  }

  /** The bits of SmallSigma0, where the shift brings a bit in. */
  lemma SmallSigma0LowBits(x: Word, i: bv6)
    requires i < 29
    ensures (SmallSigma0(x) >> i) & 1
         == ((x >> ((i + 7) % 32)) & 1) ^ ((x >> ((i + 18) % 32)) & 1) ^ ((x >> (i + 3)) & 1)
  {
    SmallSigma0LowSpelled(x, i);
  }

  lemma SmallSigma0HighSpelled(x: Word, i: bv6)
    requires 29 <= i < 32
    ensures ((((x >> 7) | (x << 25)) ^ ((x >> 18) | (x << 14)) ^ (x >> 3)) >> i) & 1
         == ((x >> ((i + 7) % 32)) & 1) ^ ((x >> ((i + 18) % 32)) & 1)
  {
  }

  /** The bits of SmallSigma0, where the shift brings none in. */
  lemma SmallSigma0HighBits(x: Word, i: bv6)
    requires 29 <= i < 32
    ensures (SmallSigma0(x) >> i) & 1
         == ((x >> ((i + 7) % 32)) & 1) ^ ((x >> ((i + 18) % 32)) & 1)
  {
    SmallSigma0HighSpelled(x, i);
  }

  lemma SmallSigma1LowSpelled(x: Word, i: bv6)
    requires i < 22
    ensures ((((x >> 17) | (x << 15)) ^ ((x >> 19) | (x << 13)) ^ (x >> 10)) >> i) & 1
         == ((x >> ((i + 17) % 32)) & 1) ^ ((x >> ((i + 19) % 32)) & 1) ^ ((x >> (i + 10)) & 1)
  {
  }

  /** The bits of SmallSigma1, where the shift brings a bit in. */
  lemma SmallSigma1LowBits(x: Word, i: bv6)
    requires i < 22
    ensures (SmallSigma1(x) >> i) & 1
         == ((x >> ((i + 17) % 32)) & 1) ^ ((x >> ((i + 19) % 32)) & 1) ^ ((x >> (i + 10)) & 1)
  {
    SmallSigma1LowSpelled(x, i);
  }

  lemma SmallSigma1HighSpelled(x: Word, i: bv6)
    requires 22 <= i < 32
    ensures ((((x >> 17) | (x << 15)) ^ ((x >> 19) | (x << 13)) ^ (x >> 10)) >> i) & 1
         == ((x >> ((i + 17) % 32)) & 1) ^ ((x >> ((i + 19) % 32)) & 1)
  {
  }

  /** The bits of SmallSigma1, where the shift brings none in. */
  lemma SmallSigma1HighBits(x: Word, i: bv6)
    requires 22 <= i < 32
    ensures (SmallSigma1(x) >> i) & 1
         == ((x >> ((i + 17) % 32)) & 1) ^ ((x >> ((i + 19) % 32)) & 1)
  {
    SmallSigma1HighSpelled(x, i);
  }

  // ---------------------------------------------------------------- words and bytes

  /** Big-endian: the first byte is the most significant one. */
  function Pack(a: Byte, b: Byte, c: Byte, d: Byte): Word {
    PackBits(a as bv8, b as bv8, c as bv8, d as bv8)
  }

  function PackBits(a: bv8, b: bv8, c: bv8, d: bv8): Word {
    (d as Word) | ((c as Word) << 8) | ((b as Word) << 16) | ((a as Word) << 24)
  }

  function Unpack(x: Word): seq<Byte> {
    var n := x as int;
    [(n / 0x100_0000) as Byte, (n / 0x1_0000 % 256) as Byte, (n / 0x100 % 256) as Byte, (n % 256) as Byte]
  }

  lemma OrWeights(a: bv8, b: bv8, c: bv8, d: bv8)
    ensures ((d as Word) | ((c as Word) << 8) | ((b as Word) << 16) | ((a as Word) << 24)) as int
         == a as int * 0x100_0000 + b as int * 0x1_0000 + c as int * 0x100 + d as int
  {
  }

  lemma PackBitsWeights(a: bv8, b: bv8, c: bv8, d: bv8) returns (x: Word)
    ensures x == PackBits(a, b, c, d)
    ensures x as int == a as int * 0x100_0000 + b as int * 0x1_0000 + c as int * 0x100 + d as int
  {
    OrWeights(a, b, c, d);
    x := (d as Word) | ((c as Word) << 8) | ((b as Word) << 16) | ((a as Word) << 24);
  }

  lemma NextByte(c: bv8)
    requires c as int < 255
    ensures (c + 1) as int == c as int + 1
  {
    BelowTop(c);
  }

  lemma BelowTop(c: bv8)
    requires c as int < 255
    ensures c < 255
  {
  }

  lemma {:induction false} SomeByte(n: nat) returns (b: bv8)
    requires n < 256
    ensures b as int == n
  {
    b := 0;
    if n > 0 {
      var c := SomeByte(n - 1);
      NextByte(c);
      b := c + 1;
    }
  }

  lemma ThatByte(n: nat, b: bv8)
    requires n < 256 && b as int == n
    ensures b == n as bv8
  {
  }

  lemma ByteBits(a: Byte)
    ensures (a as bv8) as int == a as int
  {
    var b := SomeByte(a as int);
    ThatByte(a as int, b);
  }

  /** The weight of each byte in the word packed from it. */
  lemma PackWeights(a: Byte, b: Byte, c: Byte, d: Byte)
    ensures Pack(a, b, c, d) as int
         == a as int * 0x100_0000 + b as int * 0x1_0000 + c as int * 0x100 + d as int
  {
    var x := PackBitsWeights(a as bv8, b as bv8, c as bv8, d as bv8);
    ByteBits(a);
    ByteBits(b);
    ByteBits(c);
    ByteBits(d);
  }

  /** The weight of each byte a word is unpacked to. */
  lemma UnpackWeights(x: Word)
    ensures |Unpack(x)| == 4
    ensures x as int == Unpack(x)[0] as int * 0x100_0000 + Unpack(x)[1] as int * 0x1_0000
                        + Unpack(x)[2] as int * 0x100 + Unpack(x)[3] as int
  {
    var n := x as int;
    assert n / 0x1_0000 / 256 == n / 0x100_0000 && n / 0x100 / 256 == n / 0x1_0000;
    assert n == n / 0x100 * 0x100 + n % 256;
  }

  lemma {:induction false} DigitsUnique(a: nat, b: nat, c: nat, d: nat, a': nat, b': nat, c': nat, d': nat)
    requires b < 256 && c < 256 && d < 256 && b' < 256 && c' < 256 && d' < 256
    requires a * 0x100_0000 + b * 0x1_0000 + c * 0x100 + d == a' * 0x100_0000 + b' * 0x1_0000 + c' * 0x100 + d'
    ensures a == a' && b == b' && c == c' && d == d'
  {
  }

  /** Bytes and words carry the same bits: unpacking undoes packing. */
  lemma PackRoundTrip(a: Byte, b: Byte, c: Byte, d: Byte)
    ensures Unpack(Pack(a, b, c, d)) == [a, b, c, d]
  {
    var bs := Unpack(Pack(a, b, c, d));
    PackWeights(a, b, c, d);
    UnpackWeights(Pack(a, b, c, d));
    DigitsUnique(a as int, b as int, c as int, d as int, bs[0] as int, bs[1] as int, bs[2] as int, bs[3] as int);
  }
}
