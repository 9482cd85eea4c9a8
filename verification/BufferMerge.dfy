/** `interval_merge` (src/gpu-analysis.cu): merging a whole buffer in place, tile by tile, twice. */
module BufferMerge {
  import opened Common
  import opened Ranges
  import opened RangeMerge
  import opened SweepMerge

  lemma BytesConcat(s: seq<Range>, t: seq<Range>)
    ensures Bytes(s + t) == Bytes(s) + Bytes(t)
  {
    forall x: int ensures x in Bytes(s + t) <==> x in Bytes(s) || x in Bytes(t) { CoversConcat(s, t, x); }
  }

  /** The buffer after writing a tile's ranges over the slots from `items` on. */
  function Written(b: seq<Range>, items: nat, out: seq<Range>): (r: seq<Range>)
    requires items + |out| <= |b|
    ensures |r| == |b|
  {
    b[..items] + out + b[items + |out|..]
  }

  /**
   * The pass so far, against the original contents: `cur` records are read, `items` written. The
   * written ones cover what was read; so does everything before `cur`, whose stale records past
   * `items` lie within it; and nothing unread has been overwritten.
   */
  ghost predicate Pass(o: seq<Range>, b: seq<Range>, items: nat, cur: nat) {
    && |b| == |o| && items <= cur <= |o| && Small(b)
    && Bytes(b[..items]) == Bytes(o[..cur]) && Bytes(b[..cur]) == Bytes(o[..cur])
    && b[cur..] == o[cur..]
  }

  lemma PassTile(o: seq<Range>, b: seq<Range>, items: nat, cur: nat, n: nat, out: seq<Range>)
    requires Pass(o, b, items, cur) && cur + n <= |o|
    requires |out| <= n && Small(out) && Bytes(out) == Bytes(b[cur..cur + n])
    ensures Pass(o, Written(b, items, out), items + |out|, cur + n)
  {
    var w := Written(b, items, out);
    var done, next := items + |out|, cur + n;
    PassBytes(o, b, items, cur, n, out);
    assert w[next..] == b[next..] == b[cur..][n..] == o[cur..][n..];
  }

  lemma PassBytes(o: seq<Range>, b: seq<Range>, items: nat, cur: nat, n: nat, out: seq<Range>)
    requires |b| == |o| && items <= cur <= cur + n <= |o| && b[cur..] == o[cur..]
    requires Bytes(b[..items]) == Bytes(o[..cur]) && Bytes(b[..cur]) == Bytes(o[..cur])
    requires |out| <= n && Bytes(out) == Bytes(b[cur..cur + n])
    ensures var w := Written(b, items, out);
      Bytes(w[..items + |out|]) == Bytes(o[..cur + n]) && Bytes(w[..cur + n]) == Bytes(o[..cur + n])
  {
    var w := Written(b, items, out);
    var done, next := items + |out|, cur + n;
    assert b[cur..next] == o[cur..next] by { assert b[cur..][..n] == o[cur..][..n]; }
    BytesSplit(o, cur, next);
    BytesSplit(b, cur, next);
    StaleInside(b, items, out, next);
    Sandwich(Bytes(o[..cur]), Bytes(out), Bytes(w[..done]), Bytes(w[..next]), Bytes(b[..next]));
  }

  lemma Sandwich(read: iset<int>, added: iset<int>, written: iset<int>, all: iset<int>, before: iset<int>)
    requires written == read + added && before == read + added && written <= all <= written + before
    ensures all == read + added
  {
  }

  lemma BytesSplit(s: seq<Range>, i: nat, j: nat)
    requires i <= j <= |s|
    ensures Bytes(s[..j]) == Bytes(s[..i]) + Bytes(s[i..j])
  {
    assert s[..j] == s[..i] + s[i..j];
    BytesConcat(s[..i], s[i..j]);
  }

  /** What was written, and what everything before `next` covers: stale records add only old bytes. */
  lemma StaleInside(b: seq<Range>, items: nat, out: seq<Range>, next: nat)
    requires items + |out| <= next <= |b|
    ensures var w := Written(b, items, out);
      && Bytes(w[..items + |out|]) == Bytes(b[..items]) + Bytes(out)
      && Bytes(w[..items + |out|]) <= Bytes(w[..next]) <= Bytes(w[..items + |out|]) + Bytes(b[..next])
  {
    var w, done := Written(b, items, out), items + |out|;
    assert w[..done] == b[..items] + out;
    BytesConcat(b[..items], out);
    BytesSplit(w, done, next);
    assert w[done..next] == b[done..next];
    BytesSplit(b, done, next);
  }

  // ---------------------------------------------------------------- what the passes compute

  /** A way to merge a tile of ranges, padded to the tile size. */
  type TileMerge = (seq<Range>, nat) -> seq<Range>

  /** What a tile merge promises for addresses below the limit. */
  ghost predicate TileExact(f: TileMerge, rs: seq<Range>, pad: nat) {
    && Separated(f(rs, pad)) && SameBytes(f(rs, pad), rs)
    && |f(rs, pad)| <= |rs| && Small(f(rs, pad)) && (NonEmpty(rs) ==> NonEmpty(f(rs, pad)))
  }

  ghost predicate Merges(f: TileMerge) {
    forall rs, pad {:trigger TileExact(f, rs, pad)} | Small(rs) :: TileExact(f, rs, pad)
  }

  /** One tile of a pass: what is read at `cur`, and what it is merged to. */
  ghost function TileAt(f: TileMerge, b: seq<Range>, cur: nat, half: nat): (out: seq<Range>)
    requires Merges(f) && Small(b) && cur <= |b|
    ensures |out| <= Min(half, |b| - cur) && Small(out)
  {
    var n := Min(half, |b| - cur);
    assert TileExact(f, b[cur..cur + n], 2 * (half - n));
    f(b[cur..cur + n], 2 * (half - n))
  }

  lemma WrittenSmall(b: seq<Range>, items: nat, out: seq<Range>)
    requires Small(b) && Small(out) && items + |out| <= |b|
    ensures Small(Written(b, items, out))
  {
  }

  /** The rest of a pass that has read `cur` records and written `items`: the buffer, and the ranges written. */
  ghost function PassFrom(f: TileMerge, b: seq<Range>, items: nat, cur: nat, half: nat): (r: (seq<Range>, nat))
    requires Merges(f) && Small(b) && items <= cur <= |b| && half >= 1
    ensures Small(r.0) && r.1 <= |r.0| == |b|
    decreases |b| - cur
  {
    if cur == |b| then (b, items)
    else
      var out := TileAt(f, b, cur, half);
      WrittenSmall(b, items, out);
      PassFrom(f, Written(b, items, out), items + |out|, cur + Min(half, |b| - cur), half)
  }

  /** The records both passes leave. */
  ghost function BufferMerged(f: TileMerge, b: seq<Range>, half: nat): seq<Range>
    requires Merges(f) && Small(b) && half >= 1
  {
    var (b1, n1) := PassFrom(f, b, 0, 0, half);
    if n1 == |b| then b1[..n1]
    else
      var (b2, n2) := PassFrom(f, b1, 0, 0, half);
      b2[..n2]
  }

  // ---------------------------------------------------------------- when the result is in normal form

  /** A buffer of one tile comes out in normal form. */
  lemma OneTileNormal(f: TileMerge, b: seq<Range>, half: nat)
    requires Merges(f) && Small(b) && |b| <= half && half >= 1
    ensures Separated(BufferMerged(f, b, half))
  {
    OneTilePass(f, b, half);
    OneTilePass(f, PassFrom(f, b, 0, 0, half).0, half);
  }

  lemma OneTilePass(f: TileMerge, b: seq<Range>, half: nat)
    requires Merges(f) && Small(b) && |b| <= half && half >= 1
    ensures var (b', n) := PassFrom(f, b, 0, 0, half); Separated(b'[..n])
  {
    if b != [] {
      var out := TileAt(f, b, 0, half);
      PassStep(f, b, 0, 0, half, out);
      assert TileExact(f, b[0..|b|], 2 * (half - |b|));
      assert Written(b, 0, out)[..|out|] == out;
    }
  }

  const A := Range(0, 2)
  const B := Range(1, 3)
  const C := Range(0, 3)

  /** A first record that reaches into the range that fills everything beyond the first tile. */
  predicate Clashing(b: seq<Range>, half: nat) {
    && half < |b| && (b[0] == A || b[0] == C)
    && (forall i | 0 < i < half :: b[i] == A || b[i] == B || b[i] == C)
    && (forall i | half <= i < |b| :: b[i] == B)
  }

  lemma OneRange(f: TileMerge, rs: seq<Range>, pad: nat, r: Range)
    requires Merges(f) && Small(rs) && NonEmpty(rs) && r.start < r.end && SameBytes([r], rs)
    ensures f(rs, pad) == [r]
  {
    assert TileExact(f, rs, pad);
    NormalFormUnique(f(rs, pad), [r]);
  }

  /** A tile beyond the first holds only copies of B. */
  lemma LaterTile(f: TileMerge, b: seq<Range>, cur: nat, half: nat)
    requires Merges(f) && Small(b) && Clashing(b, half) && 1 <= half <= cur < |b|
    ensures TileAt(f, b, cur, half) == [B]
  {
    var n := Min(half, |b| - cur);
    var rs := b[cur..cur + n];
    forall x: int ensures Covers([B], x) <==> Covers(rs, x) {
      if B.Contains(x) {
        CoversAt([B], 0, x);
        CoversAt(rs, 0, x);
      }
    }
    OneRange(f, rs, 2 * (half - n), B);
  }

  /** The first tile is merged to one range from 0 on. */
  lemma FirstTile(f: TileMerge, b: seq<Range>, half: nat)
    requires Merges(f) && Small(b) && Clashing(b, half) && 1 <= half
    ensures TileAt(f, b, 0, half) == [A] || TileAt(f, b, 0, half) == [C]
  {
    var rs := b[..half];
    assert b[0..half] == rs;
    var r := if Covers(rs, 2) then C else A;
    forall x: int ensures Covers([r], x) <==> Covers(rs, x) {
      if r.Contains(x) { CoversAt([r], 0, x); }
      if A.Contains(x) { CoversAt(rs, 0, x); }
    }
    OneRange(f, rs, 0, r);
  }

  lemma PassStep(f: TileMerge, b: seq<Range>, items: nat, cur: nat, half: nat, out: seq<Range>)
    requires Merges(f) && Small(b) && items <= cur < |b| && half >= 1 && out == TileAt(f, b, cur, half)
    ensures Small(Written(b, items, out))
    ensures PassFrom(f, b, items, cur, half)
         == PassFrom(f, Written(b, items, out), items + |out|, cur + Min(half, |b| - cur), half)
  {
    WrittenSmall(b, items, out);
  }

  /** Writing the one range of a tile. */
  lemma ClashKept(b: seq<Range>, half: nat, i: nat, r: Range)
    requires Clashing(b, half) && i < |b| && half >= 1 && if i == 0 then r == A || r == C else r == B
    ensures Written(b, i, [r]) == b[i := r] && Clashing(b[i := r], half)
  {
  }

  lemma LaterStep(f: TileMerge, b: seq<Range>, items: nat, cur: nat, half: nat) returns (b': seq<Range>, cur': nat)
    requires Merges(f) && Small(b) && Clashing(b, half) && 1 <= half <= cur < |b| && 1 <= items <= cur
    requires items >= 2 ==> b[1] == B
    ensures |b'| == |b| && Small(b') && Clashing(b', half) && b'[1] == B && cur < cur' <= |b| && items < cur'
    ensures PassFrom(f, b, items, cur, half) == PassFrom(f, b', items + 1, cur', half)
  {
    LaterTile(f, b, cur, half);
    PassStep(f, b, items, cur, half, [B]);
    ClashKept(b, half, items, B);
    b', cur' := b[items := B], cur + Min(half, |b| - cur);
  }

  /** A finished pass whose first two ranges overlap. */
  predicate Clashed(r: (seq<Range>, nat), half: nat) {
    Clashing(r.0, half) && 2 <= r.1 <= |r.0| && r.0[1] == B
  }

  lemma {:induction false} LaterTilesClash(f: TileMerge, b: seq<Range>, items: nat, cur: nat, half: nat)
    returns (r: (seq<Range>, nat))
    requires Merges(f) && Small(b) && Clashing(b, half) && 1 <= half <= cur <= |b| && 1 <= items <= cur
    requires cur == |b| ==> items >= 2
    requires items >= 2 ==> b[1] == B
    ensures r == PassFrom(f, b, items, cur, half) && Clashed(r, half)
    decreases |b| - cur, 1
  {
    if cur == |b| {
      r := (b, items);
    } else {
      r := NextTileClashes(f, b, items, cur, half);
    }
  }

  lemma {:induction false} NextTileClashes(f: TileMerge, b: seq<Range>, items: nat, cur: nat, half: nat)
    returns (r: (seq<Range>, nat))
    requires Merges(f) && Small(b) && Clashing(b, half) && 1 <= half <= cur < |b| && 1 <= items <= cur
    requires items >= 2 ==> b[1] == B
    ensures r == PassFrom(f, b, items, cur, half) && Clashed(r, half)
    decreases |b| - cur, 0
  {
    var b', cur' := LaterStep(f, b, items, cur, half);
    r := LaterTilesClash(f, b', items + 1, cur', half);
  }

  lemma PassClashes(f: TileMerge, b: seq<Range>, half: nat) returns (r: (seq<Range>, nat))
    requires Merges(f) && Small(b) && Clashing(b, half) && half >= 1
    ensures r == PassFrom(f, b, 0, 0, half) && Clashed(r, half)
  {
    FirstTile(f, b, half);
    var out := TileAt(f, b, 0, half);
    PassStep(f, b, 0, 0, half, out);
    ClashKept(b, half, 0, out[0]);
    r := LaterTilesClash(f, b[0 := out[0]], 1, half, half);
  }

  lemma ClashedNotNormal(r: (seq<Range>, nat), half: nat)
    requires Clashed(r, half)
    ensures !Separated(r.0[..r.1])
  {
    var out := r.0[..r.1];
    assert out[0].end >= 2 && out[1] == B;
  }

  /** Copies of A in the first tile and of B after it: beyond the first tile both passes only ever read copies of B. */
  function Overlapping(n: nat, half: nat): (b: seq<Range>)
    ensures |b| == n && Small(b) && NonEmpty(b) && (1 <= half < n ==> Clashing(b, half))
  {
    seq(n, i => if i < half then A else B)
  }

  lemma ClashingNotNormal(f: TileMerge, b: seq<Range>, half: nat)
    requires Merges(f) && Small(b) && Clashing(b, half) && half >= 1
    ensures !Separated(BufferMerged(f, b, half))
  {
    var first := PassClashes(f, b, half);
    ClashedNotNormal(first, half);
    var second := PassClashes(f, first.0, half);
    ClashedNotNormal(second, half);
  }

  /**
   * Normal form, exactly. Every buffer of `n` records comes out in normal form if and only if they fit one
   * tile. Beyond that even buffers of non-empty ranges fail, such as Overlapping(n, half).
   */
  lemma BufferNormalIff(f: TileMerge, n: nat, half: nat)
    requires Merges(f) && half >= 1
    ensures (forall b | |b| == n && Small(b) && NonEmpty(b) :: Separated(BufferMerged(f, b, half))) <==> n <= half
    ensures n <= half ==> forall b | |b| == n && Small(b) :: Separated(BufferMerged(f, b, half))
    ensures n > half ==> !Separated(BufferMerged(f, Overlapping(n, half), half))
  {
    if n <= half {
      forall b | |b| == n && Small(b) ensures Separated(BufferMerged(f, b, half)) { OneTileNormal(f, b, half); }
    } else {
      ClashingNotNormal(f, Overlapping(n, half), half);
    }
  }

  // ---------------------------------------------------------------- the buffer

  /** `f` is the sweep; known only where a sweep is looked at. */
  ghost predicate Sweeps(f: TileMerge) {
    forall rs, pad {:trigger Swept(rs, pad)} | Small(rs) :: f(rs, pad) == Swept(rs, pad)
  }

  /** The tile merge the buffer uses. */
  ghost function Sweep(): (f: TileMerge)
    ensures Merges(f) && Sweeps(f)
  {
    var f := (rs: seq<Range>, pad: nat) => if Small(rs) then Swept(rs, pad) else [];
    assert forall rs, pad {:trigger f(rs, pad)} | Small(rs) :: f(rs, pad) == Swept(rs, pad);
    f
  }

  /** A pass over `o` that has read `cur` records and written `items`, leaving `b`. */
  ghost predicate Tracks(f: TileMerge, o: seq<Range>, b: seq<Range>, items: nat, cur: nat, half: nat) {
    && half >= 1 && Merges(f) && Small(o) && Pass(o, b, items, cur)
    && PassFrom(f, b, items, cur, half) == PassFrom(f, o, 0, 0, half)
  }

  lemma TrackStart(f: TileMerge, o: seq<Range>, half: nat)
    requires half >= 1 && Merges(f) && Small(o)
    ensures Tracks(f, o, o, 0, 0, half)
  {
  }

  lemma TrackStep(f: TileMerge, o: seq<Range>, b: seq<Range>, items: nat, cur: nat, half: nat, n: nat)
    returns (w: seq<Range>)
    requires Tracks(f, o, b, items, cur, half) && cur < |b| && n == Min(half, |b| - cur)
    ensures var out := f(b[cur..cur + n], 2 * (half - n));
            |out| <= n && w == Written(b, items, out) && Tracks(f, o, w, items + |out|, cur + n, half)
  {
    var out := TileAt(f, b, cur, half);
    assert TileExact(f, b[cur..cur + n], 2 * (half - n));
    assert Bytes(out) == Bytes(b[cur..cur + n]);
    PassTile(o, b, items, cur, n, out);
    PassStep(f, b, items, cur, half, out);
    w := Written(b, items, out);
  }

  lemma TrackEnd(f: TileMerge, o: seq<Range>, b: seq<Range>, items: nat, half: nat)
    requires Tracks(f, o, b, items, |o|, half)
    ensures PassFrom(f, o, 0, 0, half) == (b, items) && items <= |b| == |o|
    ensures Bytes(b[..items]) == Bytes(o) && Bytes(b) == Bytes(o) && Small(b) && Small(b[..items])
  {
    assert b[..|o|] == b && o[..|o|] == o;
  }

  class AnalysisBuffer {
    const records: array<Range>
    var headIndex: nat
    var tailIndex: nat

    constructor (size: nat)
      ensures fresh(records) && headIndex == 0 && tailIndex == 0 && records.Length == size
    {
      records := new Range[size](i => Range(0, 0));
      headIndex, tailIndex := 0, 0;
    }

    /** One call of the tile merge: reads `n` records at `cur`, writes its ranges at `items`. */
    method MergeTile(ghost f: TileMerge, ghost b: seq<Range>, items: nat, cur: nat, n: nat, half: nat) returns (k: nat)
      requires headIndex <= records.Length && records[..headIndex] == b && items <= cur <= cur + n <= |b| && n <= half
      requires Small(b) && Merges(f) && Sweeps(f)
      modifies records
      ensures records[headIndex..] == old(records[headIndex..])
      ensures var out := f(b[cur..cur + n], 2 * (half - n));
              k == |out| <= n && records[..headIndex] == Written(b, items, out)
    {
      var tile := records[cur..cur + n];
      assert |tile| == n && forall i | 0 <= i < n :: tile[i] == records[cur + i] == b[cur + i];
      assert tile == b[cur..cur + n];
      var out := IntervalMergeImpl(tile, 2 * (half - n));
      k := |out|;
      WriteOut(items, out);
    }

    /** The scattered ranges land in consecutive slots from `items` on. */
    method WriteOut(items: nat, out: seq<Range>)
      requires items + |out| <= headIndex <= records.Length
      modifies records
      ensures records[..headIndex] == Written(old(records[..headIndex]), items, out)
      ensures records[headIndex..] == old(records[headIndex..])
    {
      for i := 0 to |out|
        invariant forall j | 0 <= j < records.Length ::
                    records[j] == if items <= j < items + i then out[j - items] else old(records[j])
      {
        records[items + i] := out[i];
      }
    }

    /** The next tile of a pass, full or the remainder. */
    method NextTile(
      ghost f: TileMerge, ghost o: seq<Range>, ghost b: seq<Range>, items: nat, cur: nat, n: nat, half: nat)
      returns (k: nat, ghost w: seq<Range>)
      requires headIndex <= records.Length && records[..headIndex] == b && cur < |b| && n == Min(half, |b| - cur)
      requires Tracks(f, o, b, items, cur, half) && Sweeps(f)
      modifies records
      ensures records[..headIndex] == w && |w| == |b| && Tracks(f, o, w, items + k, cur + n, half)
      ensures records[headIndex..] == old(records[headIndex..])
    {
      w := TrackStep(f, o, b, items, cur, half, n);
      k := MergeTile(f, b, items, cur, n, half);
    }

    /** One pass over the buffer: full tiles, then the remainder. */
    method MergePass(ghost f: TileMerge, half: nat) returns (items: nat)
      requires headIndex <= records.Length && half >= 1 && Small(records[..headIndex]) && Merges(f) && Sweeps(f)
      modifies records
      ensures Tracks(f, old(records[..headIndex]), records[..headIndex], items, headIndex, half)
      ensures records[headIndex..] == old(records[headIndex..])
    {
      ghost var o := records[..headIndex];
      ghost var b := o;
      var cur, k := 0, 0;
      items := 0;
      TrackStart(f, o, half);
      while cur + half <= headIndex
        invariant Tracks(f, o, b, items, cur, half) && cur <= headIndex && records[..headIndex] == b
        invariant records[headIndex..] == old(records[headIndex..])
        decreases headIndex - cur
      {
        k, b := NextTile(f, o, b, items, cur, half, half);
        items, cur := items + k, cur + half;
      }
      if cur < headIndex {
        k, b := NextTile(f, o, b, items, cur, headIndex - cur, half);
        items, cur := items + k, headIndex;
      }
    }

    /** Both passes; the second only if the first made the buffer shorter. */
    method MergeTwice(ghost f: TileMerge, half: nat) returns (items: nat)
      requires headIndex <= records.Length && half >= 1 && Small(records[..headIndex]) && Merges(f) && Sweeps(f)
      modifies records
      ensures items <= headIndex && records[..items] == BufferMerged(f, old(records[..headIndex]), half)
      ensures Small(records[..items]) && Bytes(records[..items]) == Bytes(old(records[..headIndex]))
    {
      ghost var o := records[..headIndex];
      items := MergePass(f, half);
      ghost var b := records[..headIndex];
      TrackEnd(f, o, b, items, half);
      if items < headIndex {
        items := MergePass(f, half);
        TrackEnd(f, b, records[..headIndex], items, half);
      }
      assert records[..headIndex][..items] == records[..items];
    }

    /**
     * The whole buffer, for every head index: afterwards its records cover exactly the bytes they
     * covered before, in no more records. BufferNormalIff says when they are in normal form.
     */
    method IntervalMerge(half: nat)
      requires headIndex <= records.Length && half >= 1 && Small(records[..headIndex])
      modifies this, records
      ensures headIndex == tailIndex <= old(headIndex) && Small(records[..headIndex])
      ensures Bytes(records[..headIndex]) == Bytes(old(records[..headIndex]))
      ensures records[..headIndex] == BufferMerged(Sweep(), old(records[..headIndex]), half)
      ensures old(headIndex) <= half ==> Separated(records[..headIndex])
    {
      ghost var f, o := Sweep(), records[..headIndex];
      if headIndex <= half { OneTileNormal(f, o, half); }
      var items := MergeTwice(f, half);
      headIndex, tailIndex := items, items;
    }
  }

  /** For ranges given in order of their starts, the CPU's merging agrees with the tile merge. */
  lemma TileAgreesWithFold(rs: seq<Range>, out: seq<Range>)
    requires NonEmpty(rs) && InOrder(rs) && Separated(out) && NonEmpty(out) && SameBytes(out, rs)
    ensures out == MergeAll(rs)
  {
    MergeAllNormal(rs);
    MergeAllCovers(rs);
    NormalFormUnique(out, MergeAll(rs));
  }
}
