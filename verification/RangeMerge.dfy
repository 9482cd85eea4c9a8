/** `merge_memory_range` (redshow/src/analysis/data_flow.cpp, repeated in memory_profile.cpp). */
module RangeMerge {
  import opened Ranges

  /** The first range from `k` on that the new range's end does not swallow whole. */
  function Swallowed(s: seq<Range>, k: nat, end: nat): (j: nat)
    requires k <= |s|
    ensures k <= j <= |s|
    ensures forall i | k <= i < j :: s[i].start <= end && s[i].end < end
    ensures j < |s| ==> s[j].start > end || s[j].end >= end
    decreases |s| - k
  {
    if k < |s| && s[k].start <= end && s[k].end < end then Swallowed(s, k + 1, end) else k
  }

  /** Which stored ranges a merge replaces, and by what; `lo == hi` with no range means no change. */
  datatype Plan = Keep | Replace(lo: nat, hi: nat, merged: Range)

  function MergePlan(s: seq<Range>, r: Range): (p: Plan)
    ensures p.Replace? ==> p.lo <= p.hi <= |s|
  {
    PlanAt(s, r, UpperBound(s, r.start))
  }

  /** The plan when the first `k` ranges are those that start at or before the new one. */
  function PlanAt(s: seq<Range>, r: Range, k: nat): (p: Plan)
    requires k <= |s|
    ensures p.Replace? ==> p.lo <= p.hi <= |s|
  {
    if k == 0 then Replace(0, 0, r)
    else if s[k - 1].end >= r.start && s[k - 1].end >= r.end then Keep
    else
      var lo := if s[k - 1].end >= r.start then k - 1 else k;
      var start := if s[k - 1].end >= r.start then s[k - 1].start else r.start;
      var (hi, end) := Reach(s, Swallowed(s, k, r.end), r.end);
      Replace(lo, hi, Range(start, end))
  }

  /** The range at `j` is merged too when it starts by `limit`: how far the merge then goes. */
  function Reach(s: seq<Range>, j: nat, limit: nat): (r: (nat, nat))
    requires j <= |s|
    ensures j <= r.0 <= |s|
  {
    if j < |s| && s[j].start <= limit then (j + 1, s[j].end) else (j, limit)
  }

  function Merged(s: seq<Range>, r: Range): seq<Range> {
    match MergePlan(s, r)
    case Keep => s
    case Replace(lo, hi, m) => Splice(s, lo, hi, m)
  }

  // ---------------------------------------------------------------- what a plan replaces

  /** The replaced stretch fits inside `m`, reaches both of its ends, and its neighbours start outside it. */
  predicate Fits(s: seq<Range>, r: Range, lo: nat, hi: nat, m: Range) {
    && lo <= hi <= |s|
    && (forall i | lo <= i < hi :: m.start <= s[i].start && s[i].end <= m.end)
    && (m.start == r.start || (lo < hi && m.start == s[lo].start <= r.start <= s[lo].end))
    && (m.end == r.end || (lo < hi && m.end == s[hi - 1].end >= r.end >= s[hi - 1].start))
    && (lo > 0 ==> s[lo - 1].start < m.start) && (hi < |s| ==> m.start < s[hi].start)
    && (lo > 0 ==> s[lo - 1].end < r.start || lo < hi)
    && (hi < |s| && UpperBound(s, r.start) > 0 ==> r.end < s[hi].start || m.end == s[hi - 1].end)
  }

  lemma PlanFits(s: seq<Range>, r: Range)
    requires StartSorted(s) && Proper(s) && r.start <= r.end && MergePlan(s, r).Replace?
    ensures var p := MergePlan(s, r); Fits(s, r, p.lo, p.hi, p.merged)
  {
    var k, p := UpperBound(s, r.start), MergePlan(s, r);
    if k > 0 {
      forall i | p.lo <= i < p.hi ensures p.merged.start <= s[i].start && s[i].end <= p.merged.end {
        if i < k { assert i == k - 1; } else { assert s[k - 1].start < s[i].start; }
      }
    }
  }

  /** The replacement covers what it replaces and the new range, and nothing else. */
  lemma FitCovers(s: seq<Range>, r: Range, lo: nat, hi: nat, m: Range, x: int)
    requires Proper(s) && r.start <= r.end && Fits(s, r, lo, hi, m)
    ensures m.Contains(x) <==> Covers(s[lo..hi], x) || r.Contains(x)
  {
    var mid := s[lo..hi];
    if Covers(mid, x) {
      var i :| 0 <= i < |mid| && mid[i].Contains(x);
      assert mid[i] == s[lo + i];
    }
    if m.Contains(x) && x < r.start {
      assert mid[0] == s[lo];
      CoversAt(mid, 0, x);
    }
    if m.Contains(x) && x >= r.end {
      assert mid[|mid| - 1] == s[hi - 1];
      CoversAt(mid, |mid| - 1, x);
    }
  }

  // ---------------------------------------------------------------- coverage, order, normal form

  /** The result covers exactly the old bytes and the new range, however the stored ranges overlap. */
  lemma MergedCovers(s: seq<Range>, r: Range, x: int)
    requires StartSorted(s) && Proper(s) && r.start <= r.end
    ensures Covers(Merged(s, r), x) <==> Covers(s, x) || r.Contains(x)
  {
    match MergePlan(s, r)
    case Keep =>
      if r.Contains(x) { CoversAt(s, UpperBound(s, r.start) - 1, x); }
    case Replace(lo, hi, m) =>
      PlanFits(s, r);
      FitCovers(s, r, lo, hi, m, x);
      SpliceCovers(s, lo, hi, m, x);
  }

  lemma MergedSorted(s: seq<Range>, r: Range)
    requires StartSorted(s) && Proper(s) && r.start <= r.end
    ensures StartSorted(Merged(s, r)) && Proper(Merged(s, r))
  {
    match MergePlan(s, r)
    case Keep =>
    case Replace(lo, hi, m) =>
      PlanFits(s, r);
      SpliceSorted(s, lo, hi, m);
  }

  /** Some stored range starts at or before the new one, or the new one stays clear of them all. */
  predicate Anchored(s: seq<Range>, r: Range) { s == [] || s[0].start <= r.start || r.end < s[0].start }

  lemma SpliceSeparated(s: seq<Range>, lo: nat, hi: nat, m: Range)
    requires lo <= hi <= |s| && Separated(s) && m.start <= m.end
    requires (lo > 0 ==> s[lo - 1].end < m.start) && (hi < |s| ==> m.end < s[hi].start)
    ensures Separated(Splice(s, lo, hi, m))
  {
    assert forall i | 0 <= i < lo :: s[i].end < m.start;
    assert forall i | hi <= i < |s| :: m.end < s[i].start;
  }

  lemma PlanClears(s: seq<Range>, r: Range)
    requires StartSorted(s) && Separated(s) && r.start <= r.end && Anchored(s, r) && MergePlan(s, r).Replace?
    ensures var p := MergePlan(s, r);
            && p.merged.start <= p.merged.end
            && (p.lo > 0 ==> s[p.lo - 1].end < p.merged.start) && (p.hi < |s| ==> p.merged.end < s[p.hi].start)
  {
    PlanFits(s, r);
  }

  /** Gap-separated normal form is kept exactly when the new range is anchored. */
  lemma MergedNormalIff(s: seq<Range>, r: Range)
    requires StartSorted(s) && Separated(s) && r.start <= r.end
    ensures Separated(Merged(s, r)) <==> Anchored(s, r)
  {
    match MergePlan(s, r)
    case Keep =>
    case Replace(lo, hi, m) =>
      if Anchored(s, r) {
        PlanClears(s, r);
        SpliceSeparated(s, lo, hi, m);
      } else {
        var t := Splice(s, 0, 0, r);
        assert t[0] == r && t[1] == s[0];
      }
  }

  /** The set the source edits by reference. */
  class RangeSet {
    var ranges: seq<Range>

    constructor (ranges: seq<Range>)
      ensures this.ranges == ranges
    {
      this.ranges := ranges;
    }

    method MergeMemoryRange(r: Range)
      requires StartSorted(ranges) && Proper(ranges) && r.start <= r.end
      modifies this
      ensures ranges == Merged(old(ranges), r)
    {
      ghost var s, p := ranges, MergePlan(ranges, r);
      var start, end := r.start, r.end;
      var liter := UpperBound(ranges, r.start);
      if liter == 0 {
        ranges := Emplace(ranges, r);
        return;
      }
      liter := liter - 1;
      if ranges[liter].end >= r.start {
        if ranges[liter].end < r.end {
          start := ranges[liter].start;
          ranges := Erase(ranges, liter);
        } else {
          return;
        }
      } else {
        liter := liter + 1;
      }
      AbsorbedGap(s, r, UpperBound(s, r.start), p);
      PlanEmplaces(s, r, p);
      assert start == p.merged.start && liter == p.lo;
      ranges, end := AbsorbRight(ranges, liter, r.end);
      assert ranges == s[..p.lo] + s[p.hi..] && end == p.merged.end;
      ranges := Emplace(ranges, Range(start, end));
    }
  }

  /** `s` without the ranges from `i` to `j`, nor the one at `j` if it reaches back to `limit`; and the new end. */
  function CutAt(s: seq<Range>, i: nat, j: nat, limit: nat): (seq<Range>, nat)
    requires i <= j <= |s|
  {
    var (hi, end) := Reach(s, j, limit);
    (s[..i] + s[hi..], end)
  }

  lemma CutErased(s: seq<Range>, i: nat, j: nat, limit: nat)
    requires i < j <= |s|
    ensures CutAt(Erase(s, i), i, j - 1, limit) == CutAt(s, i, j, limit)
  {
    var t := Erase(s, i);
    assert t[..i] == s[..i] && t[j - 1..] == s[j..];
    if j < |s| { assert t[j - 1] == s[j] && t[j..] == s[j + 1..]; }
  }

  /** What AbsorbRight computes. */
  function Absorb(s: seq<Range>, riter: nat, limit: nat): (seq<Range>, nat)
    requires riter <= |s|
  {
    CutAt(s, riter, Swallowed(s, riter, limit), limit)
  }

  /** Erasing the range just left of the swallowed stretch does not change what is swallowed. */
  lemma AbsorbErased(s: seq<Range>, k: nat, limit: nat)
    requires k < |s|
    ensures Absorb(Erase(s, k), k, limit) == CutAt(s, k, Swallowed(s, k + 1, limit), limit)
  {
    ErasedSwallows(s, k, limit);
    CutErased(s, k, Swallowed(s, k + 1, limit), limit);
  }

  lemma AbsorbedGap(s: seq<Range>, r: Range, k: nat, p: Plan)
    requires 0 < k <= |s| && p == PlanAt(s, r, k) && p.Replace?
    ensures Absorb(if p.lo == k then s else Erase(s, p.lo), p.lo, r.end) == (s[..p.lo] + s[p.hi..], p.merged.end)
  {
    if p.lo != k { AbsorbErased(s, p.lo, r.end); }
  }

  lemma {:induction false} ErasedSwallows(s: seq<Range>, k: nat, limit: nat)
    requires k < |s|
    ensures Swallowed(Erase(s, k), k, limit) + 1 == Swallowed(s, k + 1, limit)
  {
    ShiftedSwallows(s, Erase(s, k), k + 1, limit);
  }

  lemma {:induction false} ShiftedSwallows(s: seq<Range>, t: seq<Range>, k: nat, limit: nat)
    requires 1 <= k <= |s| == |t| + 1 && forall i | k <= i < |s| :: t[i - 1] == s[i]
    ensures Swallowed(t, k - 1, limit) + 1 == Swallowed(s, k, limit)
    decreases |s| - k
  {
    if k < |s| {
      assert t[k - 1] == s[k];
      ShiftedSwallows(s, t, k + 1, limit);
    }
  }

  lemma GapSorted(s: seq<Range>, lo: nat, hi: nat)
    requires lo <= hi <= |s| && StartSorted(s)
    ensures StartSorted(s[..lo] + s[hi..])
  {
    var t := s[..lo] + s[hi..];
    forall i, j | 0 <= i < j < |t| ensures t[i].start < t[j].start {
      assert t[i] == s[if i < lo then i else i + hi - lo] && t[j] == s[if j < lo then j else j + hi - lo];
    }
  }

  lemma EmplaceAt(t: seq<Range>, k: nat, m: Range)
    requires StartSorted(t) && k <= |t|
    requires (k > 0 ==> t[k - 1].start < m.start) && (k < |t| ==> m.start < t[k].start)
    ensures Emplace(t, m) == t[..k] + [m] + t[k..]
  {
    UpperBoundIs(t, m.start, k);
  }

  lemma EmplaceGap(s: seq<Range>, lo: nat, hi: nat, m: Range)
    requires lo <= hi <= |s| && StartSorted(s)
    requires (lo > 0 ==> s[lo - 1].start < m.start) && (hi < |s| ==> m.start < s[hi].start)
    ensures Emplace(s[..lo] + s[hi..], m) == Splice(s, lo, hi, m)
  {
    var t := s[..lo] + s[hi..];
    GapSorted(s, lo, hi);
    assert lo > 0 ==> t[lo - 1] == s[lo - 1];
    assert lo < |t| ==> t[lo] == s[hi];
    EmplaceAt(t, lo, m);
    assert t[..lo] == s[..lo] && t[lo..] == s[hi..];
  }

  lemma PlanEmplaces(s: seq<Range>, r: Range, p: Plan)
    requires StartSorted(s) && Proper(s) && r.start <= r.end && p == MergePlan(s, r) && p.Replace?
    ensures Emplace(s[..p.lo] + s[p.hi..], p.merged) == Merged(s, r)
  {
    PlanFits(s, r);
    EmplaceGap(s, p.lo, p.hi, p.merged);
  }

  /** Deletes ranges from `riter` on while they end before `limit`, and then the one that reaches it. */
  method AbsorbRight(s: seq<Range>, riter: nat, limit: nat) returns (t: seq<Range>, end: nat)
    requires riter <= |s|
    ensures (t, end) == Absorb(s, riter, limit)
  {
    t, end := s, limit;
    var more := true;
    while more
      invariant riter <= |t|
      invariant if more then end == limit && Absorb(t, riter, limit) == Absorb(s, riter, limit)
                else (t, end) == Absorb(s, riter, limit)
      decreases more, |t|
    {
      more := false;
      if riter < |t| && t[riter].start <= limit {
        AbsorbErased(t, riter, limit);
        if t[riter].end < limit {
          more := true;
        } else {
          end := t[riter].end;
        }
        t := Erase(t, riter);
      } else {
        assert t == t[..riter] + t[riter..];
      }
    }
  }

  // ---------------------------------------------------------------- folding a sorted list

  function MergeAll(rs: seq<Range>): seq<Range> {
    if rs == [] then [] else Merged(MergeAll(rs[..|rs| - 1]), rs[|rs| - 1])
  }

  /** Starts never decrease along the list. */
  predicate InOrder(rs: seq<Range>) { forall i, j | 0 <= i < j < |rs| :: rs[i].start <= rs[j].start }

  lemma {:induction false} MergeAllCovers(rs: seq<Range>)
    requires Proper(rs)
    ensures StartSorted(MergeAll(rs)) && Proper(MergeAll(rs)) && SameBytes(MergeAll(rs), rs)
  {
    if rs != [] {
      var init, last := rs[..|rs| - 1], rs[|rs| - 1];
      MergeAllCovers(init);
      MergedSorted(MergeAll(init), last);
      forall x: int ensures Covers(MergeAll(rs), x) <==> Covers(rs, x) {
        MergedCovers(MergeAll(init), last, x);
        assert rs == init + [last];
        CoversConcat(init, [last], x);
        assert [last][0] == last;
      }
    }
  }

  lemma MergedNonEmpty(s: seq<Range>, r: Range)
    requires StartSorted(s) && NonEmpty(s) && r.start < r.end
    ensures NonEmpty(Merged(s, r))
  {
    if MergePlan(s, r).Replace? { PlanFits(s, r); }
  }

  lemma MergedFirst(s: seq<Range>, r: Range)
    requires StartSorted(s) && NonEmpty(s) && r.start < r.end && (s == [] || s[0].start <= r.start)
    ensures NonEmpty(Merged(s, r)) && Merged(s, r) != []
    ensures Merged(s, r)[0].start == if s == [] then r.start else s[0].start
  {
    if s != [] && MergePlan(s, r).Replace? {
      PlanFits(s, r);
    }
  }

  /** Folding a list whose starts never decrease gives its normal form: every merge is anchored. */
  lemma {:induction false} MergeAllNormal(rs: seq<Range>)
    requires NonEmpty(rs) && InOrder(rs)
    ensures StartSorted(MergeAll(rs)) && Separated(MergeAll(rs)) && NonEmpty(MergeAll(rs))
    ensures rs != [] ==> MergeAll(rs) != [] && MergeAll(rs)[0].start == rs[0].start
  {
    if rs != [] {
      var init, last := rs[..|rs| - 1], rs[|rs| - 1];
      MergeAllNormal(init);
      MergedNormalIff(MergeAll(init), last);
      MergedSorted(MergeAll(init), last);
      MergedFirst(MergeAll(init), last);
    }
  }
}
