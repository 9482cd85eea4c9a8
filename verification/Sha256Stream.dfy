/** The streaming hash (redshow/src/common/hash.cpp): an object fed in pieces, and its digest. */
module HashStreams {
  import opened MessageBlocks
  import opened HashWords
  import opened SecureHash

  // ---------------------------------------------------------------- padding with a 32-bit length

  /** What the code pads with: the bit length modulo 2^32, in the last four bytes only. */
  function ShortPad(m: seq<Byte>): (p: seq<Byte>)
    ensures |p| % 64 == 0
  {
    m + [0x80] + Zeros(PadZeros(|m|) + 4) + BigEndian(8 * |m| % 0x1_0000_0000, 4)
  }

  lemma BigEndianFour(x: nat, n: nat)
    ensures BigEndian(x, n + 4) == BigEndian(x / 0x1_0000_0000, n)
              + [ByteOf(x / 0x100_0000), ByteOf(x / 0x1_0000), ByteOf(x / 0x100), ByteOf(x)]
  {
    var a, b, c, d := x / 256, x / 256 / 256, x / 256 / 256 / 256, x / 256 / 256 / 256 / 256;
    assert b == x / 0x1_0000 && c == x / 0x100_0000 && d == x / 0x1_0000_0000;
    assert BigEndian(x, n + 4) == BigEndian(a, n + 3) + [ByteOf(x)];
    assert BigEndian(a, n + 3) == BigEndian(b, n + 2) + [ByteOf(a)];
    assert BigEndian(b, n + 2) == BigEndian(c, n + 1) + [ByteOf(b)];
    assert BigEndian(c, n + 1) == BigEndian(d, n) + [ByteOf(c)];
  }

  /** The digits of `x` below 2^32 are those of its remainder. */
  lemma LowDigits(x: nat)
    ensures x % 0x1_0000_0000 % 256 == x % 256
    ensures x % 0x1_0000_0000 / 0x100 % 256 == x / 0x100 % 256
    ensures x % 0x1_0000_0000 / 0x1_0000 % 256 == x / 0x1_0000 % 256
    ensures x % 0x1_0000_0000 / 0x100_0000 % 256 == x / 0x100_0000 % 256
  {
    var q, r := x / 0x1_0000_0000, x % 0x1_0000_0000;
    assert x / 0x100_0000 == q * 0x100 + r / 0x100_0000;
    assert x / 0x1_0000 == q * 0x1_0000 + r / 0x1_0000;
    assert x / 0x100 == q * 0x100_0000 + r / 0x100;
  }

  lemma ByteOfZero(x: nat)
    ensures ByteOf(x) == 0 <==> x % 256 == 0
  {
    assert ((x % 256) as Byte) as int == x % 256;
  }

  lemma BigEndianZero(x: nat)
    requires x < 0x1_0000_0000
    ensures BigEndian(x, 4) == Zeros(4) <==> x == 0
  {
    BigEndianFour(x, 0);
    ByteOfZero(x);
    ByteOfZero(x / 0x100);
    ByteOfZero(x / 0x1_0000);
    ByteOfZero(x / 0x100_0000);
    var b := BigEndian(x, 4);
    if b == Zeros(4) {
      assert b[0] == 0 && b[1] == 0 && b[2] == 0 && b[3] == 0;
    }
  }

  /** The code's padding is the standard's exactly for messages under 2^29 bytes. */
  lemma PaddingMatches(m: seq<Byte>)
    requires |m| < 0x2000_0000_0000_0000
    ensures ShortPad(m) == Pad(m) <==> |m| < 0x2000_0000
  {
    var bits, k := 8 * |m|, PadZeros(|m|);
    var front := m + [0x80] + Zeros(k);
    BigEndianFour(bits, 4);
    BigEndianFour(bits, 0);
    BigEndianLow(bits);
    BigEndianZero(bits / 0x1_0000_0000);
    assert Zeros(k + 4) == Zeros(k) + Zeros(4);
    var low := BigEndian(bits, 4);
    assert ShortPad(m) == front + (Zeros(4) + low);
    assert Pad(m) == front + (BigEndian(bits / 0x1_0000_0000, 4) + low);
    CancelFront(front, Zeros(4) + low, BigEndian(bits / 0x1_0000_0000, 4) + low);
    CancelBack(Zeros(4), BigEndian(bits / 0x1_0000_0000, 4), low);
  }

  lemma CancelFront(f: seq<Byte>, s: seq<Byte>, t: seq<Byte>)
    ensures f + s == f + t <==> s == t
  {
    assert (f + s)[|f|..] == s && (f + t)[|f|..] == t;
  }

  lemma CancelBack(s: seq<Byte>, t: seq<Byte>, b: seq<Byte>)
    requires |s| == |t|
    ensures s + b == t + b <==> s == t
  {
    assert (s + b)[..|s|] == s && (t + b)[..|s|] == t;
  }

  lemma BigEndianLow(x: nat)
    ensures BigEndian(x % 0x1_0000_0000, 4) == BigEndian(x, 4)
  {
    BigEndianFour(x, 0);
    BigEndianFour(x % 0x1_0000_0000, 0);
    LowDigits(x);
  }

  // ---------------------------------------------------------------- the object

  function VarsOf(h: seq<Word>): Vars
    requires |h| == 8
  {
    Vars(h[0], h[1], h[2], h[3], h[4], h[5], h[6], h[7])
  }

  /** `step` is the compression function; known only where compressions are looked at. */
  ghost predicate Implements(step: (Vars, Block) -> Vars, f: WordFunctions) {
    forall h: Vars, b: Block {:trigger Compress(f, h, b)} :: step(h, b) == Compress(f, h, b)
  }

  /** The hash object. Its digests are stated with `step`, which is fixed as Compression(f). */
  class Sha256 {
    const f: WordFunctions
    ghost const step: (Vars, Block) -> Vars
    const h: array<Word>
    const block: array<Byte>
    var len: nat
    var totLen: nat
    ghost var done: seq<Byte>

    ghost predicate Shaped() { h.Length == 8 && block.Length == 128 && Implements(step, f) }

    /** The object holds the value of all complete blocks fed so far, and the bytes after them. */
    ghost predicate Valid()
      reads this, h, block
    {
      && Shaped() && |done| % 64 == 0 && len < 64
      && totLen == |done| % 0x1_0000_0000
      && VarsOf(h[..]) == Fold(step, H0, done)
    }

    /** Everything fed since Init. */
    ghost function Message(): seq<Byte>
      requires Valid()
      reads this, h, block
    {
      done + block[..len]
    }

    constructor (f: WordFunctions := STANDARD)
      ensures Shaped() && fresh(h) && fresh(block) && this.f == f && step == Compression(f)
    {
      this.f, step := f, Compression(f);
      h, block := new Word[8], new Byte[128];
    }

    method Init()
      requires Shaped()
      modifies this, h
      ensures Valid() && Message() == []
    {
      h[0] := 0x6a09e667;
      h[1] := 0xbb67ae85;
      h[2] := 0x3c6ef372;
      h[3] := 0xa54ff53a;
      h[4] := 0x510e527f;
      h[5] := 0x9b05688c;
      h[6] := 0x1f83d9ab;
      h[7] := 0x5be0cd19;
      len, totLen, done := 0, 0, [];
    }

    method Transform(bytes: seq<Byte>, blockNb: nat)
      requires Shaped() && blockNb * 64 <= |bytes|
      modifies h
      ensures VarsOf(h[..]) == Fold(step, old(VarsOf(h[..])), bytes[..blockNb * 64])
    {
      ghost var h0 := VarsOf(h[..]);
      for i := 0 to blockNb
        invariant VarsOf(h[..]) == Fold(step, h0, bytes[..i * 64])
      {
        BlockStep(step, h0, bytes, i);
        TransformBlock(bytes[i * 64..i * 64 + 64]);
      }
    }

    method TransformBlock(sub: Block)
      requires Shaped()
      modifies h
      ensures VarsOf(h[..]) == step(old(VarsOf(h[..])), sub)
    {
      var w := Schedule(f, sub);
      var wv := CopyWords(h);
      ghost var h0 := VarsOf(h[..]);
      Mix(f, wv, w, sub);
      AddInto(wv);
      assert VarsOf(h[..]) == Compress(f, h0, sub);
    }

    method AddInto(wv: array<Word>)
      requires Shaped() && wv.Length == 8 && wv != h
      modifies h
      ensures VarsOf(h[..]) == Sum(f, old(VarsOf(h[..])), VarsOf(wv[..]))
    {
      for j := 0 to 8
        invariant forall i | 0 <= i < j :: h[i] == f.plus(old(h[i]), wv[i])
        invariant forall i | j <= i < 8 :: h[i] == old(h[i])
      {
        h[j] := f.plus(h[j], wv[j]);
      }
    }

    /** Takes any number of bytes below 2^31, past which the code's own block offsets overflow. */
    method Update(bytes: seq<Byte>)
      requires Valid() && |bytes| < 0x8000_0000
      modifies this, h, block
      ensures Valid() && Message() == old(Message()) + bytes
    {
      var tmpLen := 64 - len;
      var remLen := if |bytes| < tmpLen then |bytes| else tmpLen;
      CopyInto(block, len, bytes[..remLen]);
      assert block[..len] == old(block[..len]) && block[len..len + remLen] == bytes[..remLen];
      if len + |bytes| < 64 {
        assert bytes[..remLen] == bytes;
        assert block[..len + |bytes|] == block[..len] + block[len..len + remLen];
        len := len + |bytes|;
        return;
      }
      Flush(bytes, remLen);
    }

    /** The buffer is full: hashes it and every complete block after it, and keeps the remainder. */
    method Flush(bytes: seq<Byte>, remLen: nat)
      requires Valid() && remLen <= |bytes| && len + remLen == 64 && block[len..64] == bytes[..remLen]
      modifies this, h, block
      ensures Valid() && Message() == old(Message()) + bytes
    {
      var newLen := |bytes| - remLen;
      var blockNb := newLen / 64;
      var shifted := bytes[remLen..];
      ghost var was, kept, first, rest := done, block[..len], block[..64], shifted[blockNb * 64..];
      ghost var more := shifted[..blockNb * 64];
      FlushSplit(done, kept, bytes, remLen, first, more, rest);
      FlushLength(done, first, more, blockNb);
      Absorb(block[..], 1);
      Absorb(shifted, blockNb);
      CopyInto(block, 0, shifted[blockNb * 64..]);
      len := newLen % 64;
      totLen := (totLen + (blockNb + 1) * 64) % 0x1_0000_0000;
      assert done == was + first + more && block[..len] == rest;
    }

    /** Hashes the next blocks. */
    method Absorb(bytes: seq<Byte>, blockNb: nat)
      requires Shaped() && blockNb * 64 <= |bytes|
      requires |done| % 64 == 0 && VarsOf(h[..]) == Fold(step, H0, done)
      modifies this`done, h
      ensures |done| % 64 == 0 && VarsOf(h[..]) == Fold(step, H0, done)
      ensures done == old(done) + bytes[..blockNb * 64]
    {
      ghost var part := bytes[..blockNb * 64];
      FoldMore(step, done, part, blockNb);
      Transform(bytes, blockNb);
      done := done + part;
    }

    method Final() returns (digest: seq<Byte>)
      requires Valid()
      modifies h, block
      ensures digest == UnpackAll(f, Fold(step, H0, ShortPad(old(Message()))))
      ensures |old(Message())| < 0x2000_0000 ==>
                digest == UnpackAll(f, Fold(step, H0, Pad(old(Message()))))
    {
      ghost var message, rest := Message(), block[..len];
      var blockNb := if 55 < len % 64 then 2 else 1;
      var lenB := (totLen + len) % 0x1_0000_0000 * 8 % 0x1_0000_0000;
      var pmLen := blockNb * 64;
      PadBuffer(block, len, pmLen, lenB);
      ghost var last := block[..pmLen];
      assert pmLen == if 55 < |rest| then 128 else 64;
      ShortPadBlocks(done, rest, totLen, last);
      FoldConcat(step, H0, done, last);
      Transform(block[..], blockNb);
      if |message| < 0x2000_0000 { PaddingMatches(message); }
      digest := UnpackWords();
    }

    method UnpackWords() returns (digest: seq<Byte>)
      requires Shaped()
      ensures digest == UnpackAll(f, VarsOf(h[..]))
    {
      digest := [];
      for i := 0 to 8
        invariant digest == Unpacked(f, h[..i])
      {
        digest := digest + f.unpack(h[i]);
        assert h[..i + 1][..i] == h[..i];
      }
      assert h[..8] == h[..];
      UnpackedIsAll(f, h[..]);
    }
  }

  function Unpacked(f: WordFunctions, ws: seq<Word>): seq<Byte> {
    if ws == [] then [] else Unpacked(f, ws[..|ws| - 1]) + f.unpack(ws[|ws| - 1])
  }

  lemma UnpackedIsAll(f: WordFunctions, h: seq<Word>)
    requires |h| == 8
    ensures Unpacked(f, h) == UnpackAll(f, VarsOf(h))
  {
    assert h[..7][..6] == h[..6] && h[..6][..5] == h[..5] && h[..5][..4] == h[..4];
    assert h[..4][..3] == h[..3] && h[..3][..2] == h[..2] && h[..2][..1] == h[..1];
    assert Unpacked(f, h[..1]) == f.unpack(h[0]);
    assert Unpacked(f, h[..2]) == Unpacked(f, h[..1]) + f.unpack(h[1]);
    assert Unpacked(f, h[..3]) == Unpacked(f, h[..2]) + f.unpack(h[2]);
    assert Unpacked(f, h[..4]) == Unpacked(f, h[..3]) + f.unpack(h[3]);
    assert Unpacked(f, h[..5]) == Unpacked(f, h[..4]) + f.unpack(h[4]);
    assert Unpacked(f, h[..6]) == Unpacked(f, h[..5]) + f.unpack(h[5]);
    assert Unpacked(f, h[..7]) == Unpacked(f, h[..6]) + f.unpack(h[6]);
    assert h[..8] == h;
  }

  lemma FoldMore(step: (Vars, Block) -> Vars, done: seq<Byte>, part: seq<Byte>, blockNb: nat)
    requires |done| % 64 == 0 && |part| == blockNb * 64
    ensures |part| % 64 == 0 && |done + part| % 64 == 0
    ensures Fold(step, H0, done + part) == Fold(step, Fold(step, H0, done), part)
  {
    WholeBlocks(done, part);
    FoldConcat(step, H0, done, part);
  }

  lemma BlockStep(step: (Vars, Block) -> Vars, h0: Vars, bytes: seq<Byte>, i: nat)
    requires (i + 1) * 64 <= |bytes|
    ensures Fold(step, h0, bytes[..(i + 1) * 64])
         == step(Fold(step, h0, bytes[..i * 64]), bytes[i * 64..i * 64 + 64])
  {
    var sub: Block := bytes[i * 64..i * 64 + 64];
    FoldConcat(step, h0, bytes[..i * 64], sub);
    FoldOne(step, Fold(step, h0, bytes[..i * 64]), sub);
    assert bytes[..i * 64] + sub == bytes[..(i + 1) * 64];
  }

  lemma FlushSplit(
    done: seq<Byte>, kept: seq<Byte>, bytes: seq<Byte>, rem: nat, first: seq<Byte>, more: seq<Byte>, rest: seq<Byte>)
    requires rem <= |bytes| && first == kept + bytes[..rem] && more + rest == bytes[rem..]
    ensures done + first + more + rest == done + kept + bytes
  {
    assert bytes == bytes[..rem] + bytes[rem..];
  }

  lemma FlushLength(done: seq<Byte>, first: seq<Byte>, more: seq<Byte>, blockNb: nat)
    requires |first| == 64 && |more| == blockNb * 64
    ensures (|done| % 0x1_0000_0000 + (blockNb + 1) * 64) % 0x1_0000_0000 == |done + first + more| % 0x1_0000_0000
  {
    var n, k := |done|, (blockNb + 1) * 64;
    assert k == 64 + blockNb * 64;
    assert |done + first + more| == n + k;
  }

  lemma PadLength(d: nat, r: nat)
    requires d % 64 == 0 && r < 64
    ensures PadZeros(d + r) + 4 == (if 55 < r then 128 else 64) - r - 5
    ensures (d % 0x1_0000_0000 + r) % 0x1_0000_0000 * 8 % 0x1_0000_0000 == 8 * (d + r) % 0x1_0000_0000
  {
    assert (d + r) % 64 == r;
    var q := (d + r) / 0x1_0000_0000;
    assert (d % 0x1_0000_0000 + r) % 0x1_0000_0000 == (d + r) % 0x1_0000_0000;
    assert (d + r) % 0x1_0000_0000 * 8 == 8 * (d + r) - 8 * q * 0x1_0000_0000;
  }

  /** The block buffer, once padded, completes the padded message. */
  lemma ShortPadBlocks(done: seq<Byte>, rest: seq<Byte>, totLen: nat, last: seq<Byte>)
    requires |done| % 64 == 0 && |rest| < 64 && totLen == |done| % 0x1_0000_0000
    requires var n := if 55 < |rest| then 128 else 64;
             var bits := (totLen + |rest|) % 0x1_0000_0000 * 8 % 0x1_0000_0000;
             last == rest + [0x80] + Zeros(n - |rest| - 5) + BigEndian(bits, 4)
    ensures |last| % 64 == 0 && done + last == ShortPad(done + rest)
  {
    PadLength(|done|, |rest|);
    var zeros, bits := Zeros(PadZeros(|done| + |rest|) + 4), BigEndian(8 * (|done| + |rest|) % 0x1_0000_0000, 4);
    assert last == rest + [0x80] + zeros + bits;
    assert done + last == (done + rest) + [0x80] + zeros + bits;
  }

  /** Zeroes the buffer after its content, then sets the byte 0x80 and the length. */
  method PadBuffer(block: array<Byte>, len: nat, pmLen: nat, lenB: nat)
    requires len + 5 <= pmLen <= block.Length
    modifies block
    ensures block[..pmLen] == old(block[..len]) + [0x80] + Zeros(pmLen - len - 5) + BigEndian(lenB, 4)
  {
    CopyInto(block, len, Zeros(pmLen - len));
    block[len] := 0x80;
    CopyInto(block, pmLen - 4, BigEndian(lenB, 4));
  }

  method CopyInto(block: array<Byte>, at: nat, bytes: seq<Byte>)
    requires at + |bytes| <= block.Length
    modifies block
    ensures block[..] == old(block[..at]) + bytes + old(block[at + |bytes|..])
  {
    for i := 0 to |bytes|
      invariant block[..] == old(block[..at]) + bytes[..i] + old(block[at + i..])
    {
      block[at + i] := bytes[i];
    }
  }

  method CopyWords(h: array<Word>) returns (wv: array<Word>)
    requires h.Length == 8
    ensures fresh(wv) && wv.Length == 8 && wv[..] == h[..]
  {
    wv := new Word[8];
    for j := 0 to 8
      invariant wv[..j] == h[..j]
    {
      wv[j] := h[j];
    }
    assert wv[..8] == wv[..] && h[..8] == h[..];
  }

  /** A beginning of the message schedule. */
  predicate Scheduled(f: WordFunctions, sub: Block, ws: seq<Word>) {
    |ws| <= 64 && forall t {:trigger ws[t]} | 0 <= t < |ws| :: ws[t] == W(f, sub, t)
  }

  lemma ScheduleStep(f: WordFunctions, sub: Block, ws: seq<Word>)
    requires Scheduled(f, sub, ws) && 16 <= |ws| < 64
    ensures var j := |ws|;
      Scheduled(f, sub, ws
        + [f.plus(f.plus(f.plus(f.smallSigma1(ws[j - 2]), ws[j - 7]), f.smallSigma0(ws[j - 15])), ws[j - 16])])
  {
  }

  method Schedule(f: WordFunctions, sub: Block) returns (w: array<Word>)
    ensures fresh(w) && w.Length == 64 && Scheduled(f, sub, w[..])
  {
    w := new Word[64];
    for j := 0 to 16
      invariant Scheduled(f, sub, w[..j])
    {
      w[j] := f.pack(sub[4 * j], sub[4 * j + 1], sub[4 * j + 2], sub[4 * j + 3]);
    }
    for j := 16 to 64
      invariant Scheduled(f, sub, w[..j])
    {
      ScheduleStep(f, sub, w[..j]);
      ghost var ws := w[..j];
      w[j] := f.plus(f.plus(f.plus(f.smallSigma1(w[j - 2]), w[j - 7]), f.smallSigma0(w[j - 15])), w[j - 16]);
      assert w[..j + 1] == ws + [w[j]];
    }
    assert w[..64] == w[..];
  }

  method Mix(f: WordFunctions, wv: array<Word>, w: array<Word>, sub: Block)
    requires wv.Length == 8 && w.Length == 64 && wv != w && Scheduled(f, sub, w[..])
    modifies wv
    ensures VarsOf(wv[..]) == Rounds(f, old(VarsOf(wv[..])), sub, 64)
  {
    ghost var v := VarsOf(wv[..]);
    for j := 0 to 64
      invariant VarsOf(wv[..]) == Rounds(f, v, sub, j)
    {
      assert w[..][j] == W(f, sub, j);
      MixOnce(f, wv, K[j], w[j]);
    }
  }

  method MixOnce(f: WordFunctions, wv: array<Word>, k: Word, w: Word)
    requires wv.Length == 8
    modifies wv
    ensures VarsOf(wv[..]) == Round(f, old(VarsOf(wv[..])), k, w)
  {
    var t1 := f.plus(f.plus(f.plus(f.plus(wv[7], f.bigSigma1(wv[4])), f.ch(wv[4], wv[5], wv[6])), k), w);
    var t2 := f.plus(f.bigSigma0(wv[0]), f.maj(wv[0], wv[1], wv[2]));
    wv[7] := wv[6];
    wv[6] := wv[5];
    wv[5] := wv[4];
    wv[4] := f.plus(wv[3], t1);
    wv[3] := wv[2];
    wv[2] := wv[1];
    wv[1] := wv[0];
    wv[0] := f.plus(t1, t2);
  }

  /** Any way of feeding a message piece by piece. */
  function Joined(chunks: seq<seq<Byte>>): seq<Byte> {
    if chunks == [] then [] else Joined(chunks[..|chunks| - 1]) + chunks[|chunks| - 1]
  }

  /** Initialising, feeding any pieces and finishing gives the digest of the whole, for any word functions. */
  method HashPieces(f: WordFunctions, chunks: seq<seq<Byte>>) returns (digest: seq<Byte>)
    requires forall i | 0 <= i < |chunks| :: |chunks[i]| < 0x8000_0000
    ensures |Joined(chunks)| < 0x2000_0000 ==> digest == Digest(f, Joined(chunks))
  {
    var ctx := new Sha256(f);
    ctx.Init();
    for i := 0 to |chunks|
      invariant ctx.Valid() && fresh(ctx) && fresh(ctx.h) && fresh(ctx.block) && ctx.f == f
      invariant ctx.Message() == Joined(chunks[..i])
    {
      ctx.Update(chunks[i]);
      assert chunks[..i + 1][..i] == chunks[..i];
    }
    assert chunks[..|chunks|] == chunks;
    digest := ctx.Final();
  }
}
