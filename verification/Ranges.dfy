/** Half-open byte ranges (redshow/include/operation/memory.h), the bytes they cover, and normal form. */
module Ranges {

  datatype Range = Range(start: nat, end: nat)
  {
    predicate Contains(x: int) { start <= x < end }
  }

  predicate Covers(s: seq<Range>, x: int) { exists i :: 0 <= i < |s| && s[i].Contains(x) }

  /** The bytes a list of ranges covers, and the bytes from `lo` up to `hi`. */
  ghost function Bytes(s: seq<Range>): iset<int> { iset x: int | Covers(s, x) }

  ghost function Span(lo: int, hi: int): iset<int> { iset x: int | Between(lo, x, hi) }

  predicate Between(lo: int, x: int, hi: int) { lo <= x < hi }

  ghost predicate SameBytes(s: seq<Range>, t: seq<Range>) { forall x: int :: Covers(s, x) <==> Covers(t, x) }

  predicate Proper(s: seq<Range>) { forall i | 0 <= i < |s| :: s[i].start <= s[i].end }

  predicate NonEmpty(s: seq<Range>) { forall i | 0 <= i < |s| :: s[i].start < s[i].end }

  /** How a std::set of ranges stores them: ordered by start, one per start. */
  predicate StartSorted(s: seq<Range>) { forall i, j | 0 <= i < j < |s| :: s[i].start < s[j].start }

  /** Each range ends strictly before the next one starts: normal form. */
  predicate Separated(s: seq<Range>) { Proper(s) && forall i, j | 0 <= i < j < |s| :: s[i].end < s[j].start }

  /** Ordered without overlap; neighbours may touch. */
  predicate Disjoint(s: seq<Range>) {
    StartSorted(s) && Proper(s) && forall i, j | 0 <= i < j < |s| :: s[i].end <= s[j].start
  }

  lemma CoversAt(s: seq<Range>, i: nat, x: int)
    requires i < |s| && s[i].Contains(x)
    ensures Covers(s, x)
  {
  }

  lemma CoversConcat(s: seq<Range>, t: seq<Range>, x: int)
    ensures Covers(s + t, x) <==> Covers(s, x) || Covers(t, x)
  {
    if Covers(s, x) {
      var i :| 0 <= i < |s| && s[i].Contains(x);
      assert (s + t)[i] == s[i];
    }
    if Covers(t, x) {
      var i :| 0 <= i < |t| && t[i].Contains(x);
      assert (s + t)[|s| + i] == t[i];
    }
  }

  /** A list with its first range split off. */
  lemma CoversHead(s: seq<Range>, x: int)
    requires s != []
    ensures Covers(s, x) <==> s[0].Contains(x) || Covers(s[1..], x)
  {
    assert s == [s[0]] + s[1..];
    CoversConcat([s[0]], s[1..], x);
    assert [s[0]][0] == s[0];
  }

  lemma SeparatedTail(s: seq<Range>, x: int)
    requires Separated(s) && s != []
    ensures Separated(s[1..]) && (Covers(s[1..], x) ==> x > s[0].end)
  {
    forall i, j | 0 <= i < j < |s[1..]| ensures s[1..][i].end < s[1..][j].start {
      assert s[1..][i] == s[i + 1] && s[1..][j] == s[j + 1];
    }
    if Covers(s[1..], x) {
      var i :| 0 <= i < |s[1..]| && s[1..][i].Contains(x);
      assert s[1..][i] == s[i + 1];
    }
  }

  /** Two normal forms of the same bytes start with the same range. */
  lemma SameHead(s: seq<Range>, t: seq<Range>)
    requires Separated(s) && Separated(t) && NonEmpty(s) && NonEmpty(t) && SameBytes(s, t) && s != [] && t != []
    ensures t[0].start <= s[0].start && t[0].end <= s[0].end
  {
    CoversHead(s, s[0].start);
    CoversHead(t, s[0].start);
    SeparatedTail(t, s[0].start);
    SeparatedTail(s, s[0].end);
    CoversHead(s, s[0].end);
    CoversHead(t, s[0].end);
    CoversHead(s, t[0].start);
    CoversHead(t, t[0].start);
    SeparatedTail(s, t[0].start);
  }

  /** Normal form is unique for its bytes. */
  lemma {:induction false} NormalFormUnique(s: seq<Range>, t: seq<Range>)
    requires Separated(s) && Separated(t) && NonEmpty(s) && NonEmpty(t) && SameBytes(s, t)
    ensures s == t
    decreases |s|
  {
    if s == [] {
      if t != [] { CoversAt(t, 0, t[0].start); }
    } else if t == [] {
      CoversAt(s, 0, s[0].start);
    } else {
      SameHead(s, t);
      SameHead(t, s);
      assert s[0] == t[0];
      SeparatedTail(s, 0);
      SeparatedTail(t, 0);
      forall x: int ensures Covers(s[1..], x) <==> Covers(t[1..], x) {
        CoversHead(s, x);
        CoversHead(t, x);
        SeparatedTail(s, x);
        SeparatedTail(t, x);
      }
      NormalFormUnique(s[1..], t[1..]);
      assert s == [s[0]] + s[1..] && t == [t[0]] + t[1..];
    }
  }

  // ---------------------------------------------------------------- std::set operations

  /** How many stored ranges start at or before the key; std::set::upper_bound as an index. */
  function UpperBound(s: seq<Range>, key: int): (k: nat)
    ensures k <= |s|
    ensures forall i | 0 <= i < k :: s[i].start <= key
    ensures k < |s| ==> s[k].start > key
  {
    if s == [] || s[0].start > key then 0 else 1 + UpperBound(s[1..], key)
  }

  lemma UpperBoundIs(s: seq<Range>, key: int, k: nat)
    requires StartSorted(s) && k <= |s|
    requires (k > 0 ==> s[k - 1].start <= key) && (k < |s| ==> s[k].start > key)
    ensures UpperBound(s, key) == k
  {
  }

  function Erase(s: seq<Range>, i: nat): seq<Range>
    requires i < |s|
  {
    s[..i] + s[i + 1..]
  }

  /** `s` with the ranges from `lo` up to `hi` replaced by `m`. */
  function Splice(s: seq<Range>, lo: nat, hi: nat, m: Range): (t: seq<Range>)
    requires lo <= hi <= |s|
    ensures |t| == lo + 1 + |s| - hi
    ensures forall i | 0 <= i < lo :: t[i] == s[i]
    ensures t[lo] == m
    ensures forall i | lo < i < |t| :: t[i] == s[hi + i - lo - 1]
  {
    s[..lo] + [m] + s[hi..]
  }

  lemma SpliceSorted(s: seq<Range>, lo: nat, hi: nat, m: Range)
    requires lo <= hi <= |s| && StartSorted(s) && Proper(s) && m.start <= m.end
    requires (lo > 0 ==> s[lo - 1].start < m.start) && (hi < |s| ==> m.start < s[hi].start)
    ensures StartSorted(Splice(s, lo, hi, m)) && Proper(Splice(s, lo, hi, m))
  {
    assert forall i | 0 <= i < lo :: s[i].start < m.start;
    assert forall i | hi <= i < |s| :: m.start < s[i].start;
  }

  lemma SpliceCovers(s: seq<Range>, lo: nat, hi: nat, m: Range, x: int)
    requires lo <= hi <= |s|
    ensures Covers(Splice(s, lo, hi, m), x) <==> Covers(s[..lo], x) || m.Contains(x) || Covers(s[hi..], x)
    ensures Covers(s, x) <==> Covers(s[..lo], x) || Covers(s[lo..hi], x) || Covers(s[hi..], x)
  {
    CoversConcat(s[..lo] + [m], s[hi..], x);
    CoversConcat(s[..lo], [m], x);
    assert [m][0] == m;
    assert s == s[..lo] + (s[lo..hi] + s[hi..]);
    CoversConcat(s[..lo], s[lo..hi] + s[hi..], x);
    CoversConcat(s[lo..hi], s[hi..], x);
  }

  /** std::set::emplace: ordered by start, and no change when that start is taken. */
  function Emplace(s: seq<Range>, r: Range): seq<Range> {
    var k := UpperBound(s, r.start);
    if k > 0 && s[k - 1].start == r.start then s else Splice(s, k, k, r)
  }
}
