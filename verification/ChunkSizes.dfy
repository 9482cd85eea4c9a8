/** What the sizes of unused chunks say about the bytes they cover. */
module ChunkSizes {
  import opened Ranges
  import opened BlankChunks

  /** Every byte of the range is in the set. */
  ghost predicate Run(b: iset<int>, r: Range) { forall x | r.Contains(x) :: x in b }

  /** The longest stretch of consecutive bytes in the set has `n` bytes. */
  ghost predicate LongestRun(b: iset<int>, n: nat) {
    (exists r :: Run(b, r) && Size(r) == n) && forall r | Run(b, r) :: Size(r) <= n
  }

  /** The set has exactly `n` bytes. */
  ghost predicate Counts(b: iset<int>, n: nat) { exists f: set<int> :: (iset x | x in f) == b && |f| == n }

  /** In normal form the chunk that covers a byte covers its neighbour too, if any chunk does. */
  lemma NeighbourInside(s: seq<Range>, i: nat, x: int)
    requires Separated(s) && i < |s| && s[i].Contains(x) && Covers(s, x + 1)
    ensures s[i].Contains(x + 1)
  {
    assert forall j | 0 <= j < i :: s[j].end < s[i].start;
    assert forall j | i < j < |s| :: s[i].end < s[j].start;
  }

  /** A non-empty run of bytes of a normal form lies inside one of its ranges. */
  lemma {:induction false} RunInside(s: seq<Range>, lo: nat, hi: nat)
    requires Separated(s) && lo < hi && Run(Bytes(s), Range(lo, hi))
    ensures Inside(Range(lo, hi), s)
    decreases hi
  {
    var r := Range(lo, hi);
    assert r.Contains(hi - 1) && hi - 1 in Bytes(s);
    if hi - 1 == lo {
      var j :| 0 <= j < |s| && s[j].Contains(lo);
    } else {
      forall x | Range(lo, hi - 1).Contains(x) ensures x in Bytes(s) { assert r.Contains(x); }
      RunInside(s, lo, hi - 1);
      var j :| 0 <= j < |s| && s[j].start <= lo && hi - 1 <= s[j].end;
      NeighbourInside(s, j, hi - 2);
    }
  }

  lemma {:induction false} LargestAttained(s: seq<Range>) returns (r: Range)
    ensures Size(r) == Largest(s) && Run(Bytes(s), r)
  {
    if s == [] {
      r := Range(0, 0);
    } else if Largest(s[1..]) < Size(s[0]) {
      r := s[0];
      forall x | r.Contains(x) ensures x in Bytes(s) { CoversAt(s, 0, x); }
    } else {
      r := LargestAttained(s[1..]);
      forall x | r.Contains(x) ensures x in Bytes(s) {
        assert x in Bytes(s[1..]);
        CoversHead(s, x);
      }
    }
  }

  /** The largest chunk of a normal form is the longest run of its bytes. */
  lemma LargestIsLongestRun(s: seq<Range>)
    requires Separated(s)
    ensures LongestRun(Bytes(s), Largest(s))
  {
    var widest := LargestAttained(s);
    forall r | Run(Bytes(s), r) ensures Size(r) <= Largest(s) {
      if r.start < r.end {
        assert r == Range(r.start, r.end);
        RunInside(s, r.start, r.end);
        var j :| 0 <= j < |s| && s[j].start <= r.start && r.end <= s[j].end;
        LargestBounds(s, j);
      }
    }
  }

  lemma {:induction false} SpanCounts(lo: nat, hi: nat) returns (f: set<int>)
    requires lo <= hi
    ensures |f| == hi - lo && forall x :: x in f <==> lo <= x < hi
    decreases hi
  {
    if lo == hi {
      f := {};
    } else {
      var g := SpanCounts(lo, hi - 1);
      f := g + {hi - 1};
    }
  }

  lemma {:induction false} ChunksCount(s: seq<Range>) returns (f: set<int>)
    requires Disjoint(s)
    ensures |f| == Total(s) && forall x :: x in f <==> Covers(s, x)
  {
    if s == [] {
      f := {};
    } else {
      var head := SpanCounts(s[0].start, s[0].end);
      DisjointTail(s);
      var tail := ChunksCount(s[1..]);
      forall x ensures x in head + tail <==> Covers(s, x) { CoversHead(s, x); }
      forall x | x in head ensures x !in tail { NotInTail(s, x); }
      assert head !! tail;
      f := head + tail;
    }
  }

  lemma DisjointTail(s: seq<Range>)
    requires Disjoint(s) && s != []
    ensures Disjoint(s[1..])
  {
    assert forall i | 0 <= i < |s[1..]| :: s[1..][i] == s[i + 1];
  }

  lemma NotInTail(s: seq<Range>, x: int)
    requires Disjoint(s) && s != [] && s[0].Contains(x)
    ensures !Covers(s[1..], x)
  {
    forall i | 0 <= i < |s[1..]| ensures !s[1..][i].Contains(x) {
      assert s[1..][i] == s[i + 1] && s[0].end <= s[i + 1].start;
    }
  }

  /** The sizes of disjoint chunks add up to the number of bytes they cover. */
  lemma TotalCounts(s: seq<Range>)
    requires Disjoint(s)
    ensures Counts(Bytes(s), Total(s))
  {
    var f := ChunksCount(s);
    assert (iset x | x in f) == Bytes(s);
  }
}
