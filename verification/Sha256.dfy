/** Messages cut into blocks of 64 bytes, section 5.2.1 of FIPS 180-4. */
module MessageBlocks {

  newtype Byte = x: int | 0 <= x < 256

  type Block = b: seq<Byte> | |b| == 64 witness seq(64, _ => 0)

  /** The value after all the blocks of `m`, the last one last. */
  function Fold<H>(f: (H, Block) -> H, h: H, m: seq<Byte>): H
    requires |m| % 64 == 0
  {
    if m == [] then h else f(Fold(f, h, m[..|m| - 64]), m[|m| - 64..])
  }

  lemma {:induction false} FoldConcat<H>(f: (H, Block) -> H, h: H, m: seq<Byte>, n: seq<Byte>)
    requires |m| % 64 == 0 && |n| % 64 == 0
    ensures Fold(f, h, m + n) == Fold(f, Fold(f, h, m), n)
    decreases |n|
  {
    if n == [] {
      assert m + n == m;
    } else {
      var k := |n| - 64;
      FoldConcat(f, h, m, n[..k]);
      assert (m + n)[..|m| + k] == m + n[..k];
      assert (m + n)[|m| + k..] == n[k..];
    }
  }

  lemma WholeBlocks(m: seq<Byte>, n: seq<Byte>)
    requires |m| % 64 == 0 && |n| % 64 == 0
    ensures |m + n| % 64 == 0
  {
  }

  lemma FoldOne<H>(f: (H, Block) -> H, h: H, b: Block)
    ensures Fold(f, h, b) == f(h, b)
  {
    assert b[..0] == [] && b[0..] == b;
  }
}

/** SHA-256 as sections 4.1.2, 4.2.2, 5.1.1, 5.2.1, 5.3.3 and 6.2.2 of FIPS 180-4 define it, on whole bytes. */
module SecureHash {

  import opened MessageBlocks
  import opened HashWords

  /**
   * The word functions the hash is built from. The results about streaming hold for any choice of them;
   * STANDARD is the one of sections 3.2 and 4.1.2.
   */
  datatype WordFunctions = WordFunctions(
    plus: (Word, Word) -> Word,
    ch: (Word, Word, Word) -> Word,
    maj: (Word, Word, Word) -> Word,
    bigSigma0: Word -> Word,
    bigSigma1: Word -> Word,
    smallSigma0: Word -> Word,
    smallSigma1: Word -> Word,
    pack: (Byte, Byte, Byte, Byte) -> Word,
    unpack: Word -> seq<Byte>)

  const STANDARD: WordFunctions :=
    WordFunctions(Plus, Ch, Maj, BigSigma0, BigSigma1, SmallSigma0, SmallSigma1, Pack, Unpack)

  /** Section 4.2.2: the constants, eight at a time. */
  const K0: seq<Word> := [0x428a2f98, 0x71374491, 0xb5c0fbcf, 0xe9b5dba5,
                         0x3956c25b, 0x59f111f1, 0x923f82a4, 0xab1c5ed5]

  const K8: seq<Word> := [0xd807aa98, 0x12835b01, 0x243185be, 0x550c7dc3,
                         0x72be5d74, 0x80deb1fe, 0x9bdc06a7, 0xc19bf174]

  const K16: seq<Word> := [0xe49b69c1, 0xefbe4786, 0x0fc19dc6, 0x240ca1cc,
                         0x2de92c6f, 0x4a7484aa, 0x5cb0a9dc, 0x76f988da]

  const K24: seq<Word> := [0x983e5152, 0xa831c66d, 0xb00327c8, 0xbf597fc7,
                         0xc6e00bf3, 0xd5a79147, 0x06ca6351, 0x14292967]

  const K32: seq<Word> := [0x27b70a85, 0x2e1b2138, 0x4d2c6dfc, 0x53380d13,
                         0x650a7354, 0x766a0abb, 0x81c2c92e, 0x92722c85]

  const K40: seq<Word> := [0xa2bfe8a1, 0xa81a664b, 0xc24b8b70, 0xc76c51a3,
                         0xd192e819, 0xd6990624, 0xf40e3585, 0x106aa070]

  const K48: seq<Word> := [0x19a4c116, 0x1e376c08, 0x2748774c, 0x34b0bcb5,
                         0x391c0cb3, 0x4ed8aa4a, 0x5b9cca4f, 0x682e6ff3]

  const K56: seq<Word> := [0x748f82ee, 0x78a5636f, 0x84c87814, 0x8cc70208,
                         0x90befffa, 0xa4506ceb, 0xbef9a3f7, 0xc67178f2]

  const K: seq<Word> := K0 + K8 + K16 + K24 + K32 + K40 + K48 + K56

  /** Section 5.3.3: the initial hash value. */
  const H0: Vars := Vars(
    0x6a09e667, 0xbb67ae85, 0x3c6ef372, 0xa54ff53a, 0x510e527f, 0x9b05688c, 0x1f83d9ab, 0x5be0cd19)

  // ---------------------------------------------------------------- words and bytes

  function UnpackAll(f: WordFunctions, v: Vars): seq<Byte> {
    f.unpack(v.a) + f.unpack(v.b) + f.unpack(v.c) + f.unpack(v.d)
    + f.unpack(v.e) + f.unpack(v.f) + f.unpack(v.g) + f.unpack(v.h)
  }

  function ByteOf(x: nat): Byte { (x % 256) as Byte }

  /** The low `n` bytes of `x`, most significant first. */
  function BigEndian(x: nat, n: nat): (bs: seq<Byte>)
    ensures |bs| == n
  {
    if n == 0 then [] else BigEndian(x / 256, n - 1) + [ByteOf(x)]
  }

  function Zeros(n: nat): seq<Byte> { seq(n, _ => 0) }

  // ---------------------------------------------------------------- one block, section 6.2.2

  function W(f: WordFunctions, block: Block, t: nat): Word
    requires t < 64
  {
    if t < 16 then f.pack(block[4 * t], block[4 * t + 1], block[4 * t + 2], block[4 * t + 3])
    else
      f.plus(f.plus(f.plus(f.smallSigma1(W(f, block, t - 2)), W(f, block, t - 7)),
                    f.smallSigma0(W(f, block, t - 15))), W(f, block, t - 16))
  }

  datatype Vars = Vars(a: Word, b: Word, c: Word, d: Word, e: Word, f: Word, g: Word, h: Word)

  function Round(f: WordFunctions, v: Vars, k: Word, w: Word): Vars {
    var t1 := f.plus(f.plus(f.plus(f.plus(v.h, f.bigSigma1(v.e)), f.ch(v.e, v.f, v.g)), k), w);
    var t2 := f.plus(f.bigSigma0(v.a), f.maj(v.a, v.b, v.c));
    Vars(f.plus(t1, t2), v.a, v.b, v.c, f.plus(v.d, t1), v.e, v.f, v.g)
  }

  function Rounds(f: WordFunctions, v: Vars, block: Block, t: nat): Vars
    requires t <= 64
  {
    if t == 0 then v else Round(f, Rounds(f, v, block, t - 1), K[t - 1], W(f, block, t - 1))
  }

  function Sum(f: WordFunctions, x: Vars, y: Vars): Vars {
    Vars(f.plus(x.a, y.a), f.plus(x.b, y.b), f.plus(x.c, y.c), f.plus(x.d, y.d),
         f.plus(x.e, y.e), f.plus(x.f, y.f), f.plus(x.g, y.g), f.plus(x.h, y.h))
  }

  function Compress(f: WordFunctions, h: Vars, block: Block): Vars { Sum(f, h, Rounds(f, h, block, 64)) }

  function Compression(f: WordFunctions): (Vars, Block) -> Vars {
    (h: Vars, block: Block) => Compress(f, h, block)
  }

  // ---------------------------------------------------------------- messages

  /** With `k` zero bytes, the length field of a message of `n` bytes ends a block. */
  predicate Aligned(n: nat, k: nat) { (n + 1 + k + 8) % 64 == 0 }

  /** Section 5.1.1: how many zero bytes follow the byte 0x80. */
  function PadZeros(n: nat): (k: nat)
    ensures Aligned(n, k) && forall j: nat | j < k :: !Aligned(n, j)
  {
    (119 - n % 64) % 64
  }

  function Pad(m: seq<Byte>): (p: seq<Byte>)
    ensures |p| % 64 == 0
  {
    m + [0x80] + Zeros(PadZeros(|m|)) + BigEndian(8 * |m|, 8)
  }

  /** The digest; with the STANDARD word functions, SHA-256. */
  function Digest(f: WordFunctions, m: seq<Byte>): seq<Byte> { UnpackAll(f, Fold(Compression(f), H0, Pad(m))) }
}
