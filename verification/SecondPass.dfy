/** What each pass of `interval_merge` (src/gpu-analysis.cu) leaves, and what the second one is for. */
module SecondPass {
  import opened Common
  import opened Ranges
  import opened SweepMerge
  import opened BufferMerge

  /** The merged tiles of a buffer, one after the other, from `cur` on. */
  ghost function TilesFrom(f: TileMerge, b: seq<Range>, cur: nat, half: nat): seq<Range>
    requires Merges(f) && Small(b) && cur <= |b| && half >= 1
    decreases |b| - cur
  {
    if cur == |b| then []
    else TileAt(f, b, cur, half) + TilesFrom(f, b, cur + Min(half, |b| - cur), half)
  }

  /** Tiles depend only on what is unread. */
  lemma {:induction false} SameTiles(f: TileMerge, b: seq<Range>, w: seq<Range>, cur: nat, half: nat)
    requires Merges(f) && Small(b) && Small(w) && |b| == |w| && cur <= |b| && half >= 1 && b[cur..] == w[cur..]
    ensures TilesFrom(f, b, cur, half) == TilesFrom(f, w, cur, half)
    decreases |b| - cur
  {
    if cur < |b| {
      var n := Min(half, |b| - cur);
      assert b[cur..cur + n] == b[cur..][..n] == w[cur..][..n] == w[cur..cur + n];
      assert b[cur + n..] == b[cur..][n..] == w[cur..][n..] == w[cur + n..];
      SameTiles(f, b, w, cur + n, half);
    }
  }

  /** The records a pass has written. */
  function Left(r: (seq<Range>, nat)): seq<Range> { if r.1 <= |r.0| then r.0[..r.1] else [] }

  /** In place or not: a pass leaves the merged tiles of the buffer it found. */
  lemma {:induction false} PassIsTiles(f: TileMerge, b: seq<Range>, items: nat, cur: nat, half: nat)
    requires Merges(f) && Small(b) && items <= cur <= |b| && half >= 1
    ensures Left(PassFrom(f, b, items, cur, half)) == b[..items] + TilesFrom(f, b, cur, half)
    decreases |b| - cur
  {
    if cur == |b| {
      NoTiles(f, b, items, half);
    } else {
      var out, next := TileAt(f, b, cur, half), cur + Min(half, |b| - cur);
      var w, done := Written(b, items, out), items + |out|;
      PassStep(f, b, items, cur, half, out);
      PassIsTiles(f, w, done, next, half);
      TilesStep(f, b, items, cur, half, out, w, next);
      var r, tiles := PassFrom(f, w, done, next, half), TilesFrom(f, w, next, half);
      assert PassFrom(f, b, items, cur, half) == r;
      assert Left(r) == w[..done] + tiles == b[..items] + TilesFrom(f, b, cur, half);
    }
  }

  lemma NoTiles(f: TileMerge, b: seq<Range>, items: nat, half: nat)
    requires Merges(f) && Small(b) && items <= |b| && half >= 1
    ensures Left(PassFrom(f, b, items, |b|, half)) == b[..items] + TilesFrom(f, b, |b|, half)
  {
  }

  lemma TilesStep(f: TileMerge, b: seq<Range>, items: nat, cur: nat, half: nat, out: seq<Range>, w: seq<Range>,
                  next: nat)
    requires Merges(f) && Small(b) && items <= cur < |b| && half >= 1 && next == cur + Min(half, |b| - cur)
    requires out == TileAt(f, b, cur, half) && w == Written(b, items, out) && Small(w)
    ensures w[..items + |out|] + TilesFrom(f, w, next, half) == b[..items] + TilesFrom(f, b, cur, half)
  {
    assert w[next..] == b[next..];
    SameTiles(f, b, w, next, half);
    assert w[..items + |out|] == b[..items] + out;
  }

  /** What a pass over `o` has written covers its bytes, and so does the whole buffer. */
  ghost predicate CoversAll(o: seq<Range>, r: (seq<Range>, nat)) {
    |r.0| == |o| && Bytes(Left(r)) == Bytes(o) && Bytes(r.0) == Bytes(o)
  }

  lemma {:induction false} PassCovers(f: TileMerge, o: seq<Range>, b: seq<Range>, items: nat, cur: nat, half: nat)
    requires Tracks(f, o, b, items, cur, half)
    ensures CoversAll(o, PassFrom(f, o, 0, 0, half))
    decreases |b| - cur
  {
    if cur < |b| {
      var n := Min(half, |b| - cur);
      var w := TrackStep(f, o, b, items, cur, half, n);
      PassCovers(f, o, w, items + |f(b[cur..cur + n], 2 * (half - n))|, cur + n, half);
    } else {
      TrackEnd(f, o, b, items, half);
    }
  }

  /** What the second pass reads first covers everything, once the first pass has left no more than a tile. */
  lemma FirstPassFits(f: TileMerge, b: seq<Range>, half: nat)
    requires Merges(f) && Small(b) && half >= 1 && PassFrom(f, b, 0, 0, half).1 <= half <= |b|
    ensures Bytes(PassFrom(f, b, 0, 0, half).0[..half]) == Bytes(b)
  {
    TrackStart(f, b, half);
    PassCovers(f, b, b, 0, 0, half);
    var (b1, n1) := PassFrom(f, b, 0, 0, half);
    assert b1[..|b|] == b1;
    BytesSplit(b1, n1, half);
    BytesSplit(b1, half, |b|);
  }

  /**
   * What the second pass is for. If the first one leaves no more records than fit a tile, the result starts
   * with the normal form of the whole buffer, however many tiles that had.
   */
  lemma SecondPassCompletes(f: TileMerge, b: seq<Range>, half: nat)
    requires Merges(f) && Small(b) && half >= 1 && |TilesFrom(f, b, 0, half)| <= half < |b|
    ensures exists k :: 0 <= k <= |BufferMerged(f, b, half)|
              && Separated(BufferMerged(f, b, half)[..k]) && Bytes(BufferMerged(f, b, half)[..k]) == Bytes(b)
  {
    PassIsTiles(f, b, 0, 0, half);
    var (b1, n1) := PassFrom(f, b, 0, 0, half);
    assert n1 == |Left((b1, n1))| == |TilesFrom(f, b, 0, half)|;
    FirstPassFits(f, b, half);
    PassIsTiles(f, b1, 0, 0, half);
    var out := TileAt(f, b1, 0, half);
    assert b1[0..half] == b1[..half];
    assert TileExact(f, b1[..half], 0);
    assert BufferMerged(f, b, half) == TilesFrom(f, b1, 0, half) == out + TilesFrom(f, b1, half, half);
    assert BufferMerged(f, b, half)[..|out|] == out;
  }
}
