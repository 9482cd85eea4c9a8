/** `update_blank_chunks` (redshow/src/analysis/memory_profile.cpp): subtracting an access from the unused chunks. */
module BlankChunks {
  import opened Ranges

  // ---------------------------------------------------------------- sizes

  function Size(r: Range): nat { if r.start <= r.end then r.end - r.start else 0 }

  function Total(s: seq<Range>): nat { if s == [] then 0 else Size(s[0]) + Total(s[1..]) }

  function Largest(s: seq<Range>): nat {
    if s == [] then 0 else if Largest(s[1..]) < Size(s[0]) then Size(s[0]) else Largest(s[1..])
  }

  lemma {:induction false} TotalConcat(s: seq<Range>, t: seq<Range>)
    ensures Total(s + t) == Total(s) + Total(t)
  {
    if s == [] {
      assert s + t == t;
    } else {
      TotalConcat(s[1..], t);
      assert (s + t)[1..] == s[1..] + t;
    }
  }

  /** Each range of `t` lies inside a range of `s`. */
  ghost predicate Refines(t: seq<Range>, s: seq<Range>) {
    forall i {:trigger Inside(t[i], s)} | 0 <= i < |t| :: Inside(t[i], s)
  }

  ghost predicate Inside(r: Range, s: seq<Range>) {
    exists j :: 0 <= j < |s| && s[j].start <= r.start && r.end <= s[j].end
  }

  lemma InsideTrans(r: Range, s: seq<Range>, u: seq<Range>)
    requires Inside(r, s) && Refines(s, u)
    ensures Inside(r, u)
  {
    var j :| 0 <= j < |s| && s[j].start <= r.start && r.end <= s[j].end;
    assert Inside(s[j], u);
  }

  lemma {:induction false} LargestBounds(s: seq<Range>, i: nat)
    requires i < |s|
    ensures Size(s[i]) <= Largest(s)
  {
    if i != 0 { LargestBounds(s[1..], i - 1); }
  }

  /** A refinement has no larger chunk. */
  lemma {:induction false} LargestRefines(t: seq<Range>, s: seq<Range>)
    requires Refines(t, s)
    ensures Largest(t) <= Largest(s)
  {
    if t != [] {
      assert Inside(t[0], s);
      var j :| 0 <= j < |s| && s[j].start <= t[0].start && t[0].end <= s[j].end;
      LargestBounds(s, j);
      assert forall i | 0 <= i < |t[1..]| :: t[1..][i] == t[i + 1];
      LargestRefines(t[1..], s);
    }
  }

  // ---------------------------------------------------------------- edits of a disjoint list

  /** No range of a disjoint list reaches between two neighbours. */
  lemma GapUncovered(s: seq<Range>, i: int, x: int)
    requires Disjoint(s) && -1 <= i < |s|
    requires (i >= 0 ==> s[i].end <= x) && (i + 1 < |s| ==> x < s[i + 1].start)
    ensures !Covers(s, x)
  {
    forall j | 0 <= j < |s| ensures !s[j].Contains(x) {
      if j < i { assert s[j].end <= s[i].start; }
      if j > i + 1 { assert s[i + 1].start < s[j].start; }
    }
  }

  /** Replacing one range by parts of it that are themselves disjoint. */
  predicate Parts(m: seq<Range>, r: Range) {
    && Disjoint(m) && forall j | 0 <= j < |m| :: r.start <= m[j].start && m[j].end <= r.end
  }

  function Replaced(s: seq<Range>, i: nat, m: seq<Range>): (t: seq<Range>)
    requires i < |s|
    ensures |t| == |s| - 1 + |m|
    ensures forall j | 0 <= j < i :: t[j] == s[j]
    ensures forall j | i <= j < i + |m| :: t[j] == m[j - i]
    ensures forall j | i + |m| <= j < |t| :: t[j] == s[j - |m| + 1]
  {
    s[..i] + m + s[i + 1..]
  }

  lemma ReplacedDisjoint(s: seq<Range>, i: nat, m: seq<Range>)
    requires Disjoint(s) && i < |s| && Parts(m, s[i])
    requires forall j | 0 <= j < |m| :: m[j].start < s[i].end || i + 1 == |s|
    ensures Disjoint(Replaced(s, i, m))
  {
    var t := Replaced(s, i, m);
    assert forall j | 0 <= j < i :: s[j].end <= s[i].start && s[j].start < s[i].start;
    assert forall j | i < j < |s| :: s[i].end <= s[j].start;
  }

  lemma ReplacedCovers(s: seq<Range>, i: nat, m: seq<Range>, x: int)
    requires Disjoint(s) && i < |s| && Parts(m, s[i])
    ensures Covers(Replaced(s, i, m), x) <==> (Covers(s, x) && !s[i].Contains(x)) || Covers(m, x)
  {
    CoversConcat(s[..i] + m, s[i + 1..], x);
    CoversConcat(s[..i], m, x);
    assert s == s[..i] + ([s[i]] + s[i + 1..]);
    CoversConcat(s[..i], [s[i]] + s[i + 1..], x);
    CoversConcat([s[i]], s[i + 1..], x);
    assert [s[i]][0] == s[i];
    if s[i].Contains(x) {
      forall j | 0 <= j < |s[..i]| ensures !s[..i][j].Contains(x) { assert s[j].end <= s[i].start; }
      var right := s[i + 1..];
      forall j | 0 <= j < |right| ensures !right[j].Contains(x) { assert right[j] == s[i + 1 + j]; }
    }
  }

  lemma ReplacedSizes(s: seq<Range>, i: nat, m: seq<Range>, u: seq<Range>)
    requires i < |s| && Parts(m, s[i]) && Refines(s, u)
    ensures Refines(Replaced(s, i, m), u)
    ensures Total(Replaced(s, i, m)) == Total(s) - Size(s[i]) + Total(m)
  {
    var t := Replaced(s, i, m);
    forall j | 0 <= j < |t| ensures Inside(t[j], u) {
      if i <= j < i + |m| {
        assert Inside(t[j], s);
        InsideTrans(t[j], s, u);
      } else if j < i {
        assert Inside(s[j], u);
      } else {
        assert Inside(s[j - |m| + 1], u);
      }
    }
    TotalConcat(s[..i] + m, s[i + 1..]);
    TotalConcat(s[..i], m);
    assert s == s[..i] + ([s[i]] + s[i + 1..]);
    TotalConcat(s[..i], [s[i]] + s[i + 1..]);
    TotalConcat([s[i]], s[i + 1..]);
  }

  // ---------------------------------------------------------------- the loop

  /** `u` is `s` without the bytes from `lo` up to `hi`, cut out of its ranges. */
  ghost predicate Cleared(s: seq<Range>, u: seq<Range>, lo: nat, hi: nat) {
    && Disjoint(u) && Refines(u, s) && Total(u) <= Total(s) && lo <= hi
    && Bytes(u) == Bytes(s) - Span(lo, hi)
  }

  lemma ReplaceStep(s: seq<Range>, u: seq<Range>, lo: nat, hi: nat, i: nat, m: seq<Range>, hi': nat)
    requires Cleared(s, u, lo, hi) && i < |u| && hi <= hi' && Parts(m, u[i]) && Total(m) <= Size(u[i])
    requires forall j | 0 <= j < |m| :: m[j].start < u[i].end || i + 1 == |u|
    requires forall x: int :: Covers(m, x) <==> u[i].Contains(x) && !(hi <= x < hi')
    requires hi == hi' || u[i].start <= hi <= hi' <= u[i].end
    ensures Cleared(s, Replaced(u, i, m), lo, hi')
  {
    ReplacedDisjoint(u, i, m);
    ReplacedSizes(u, i, m, s);
    ReplacedBytes(s, u, lo, hi, i, m, hi');
  }

  lemma ReplacedBytes(s: seq<Range>, u: seq<Range>, lo: nat, hi: nat, i: nat, m: seq<Range>, hi': nat)
    requires Disjoint(u) && Bytes(u) == Bytes(s) - Span(lo, hi) && i < |u| && lo <= hi <= hi' && Parts(m, u[i])
    requires forall x: int :: Covers(m, x) <==> u[i].Contains(x) && !(hi <= x < hi')
    requires hi == hi' || u[i].start <= hi <= hi' <= u[i].end
    ensures Bytes(Replaced(u, i, m)) == Bytes(s) - Span(lo, hi')
  {
    forall x: int ensures x in Bytes(Replaced(u, i, m)) <==> x in Bytes(s) - Span(lo, hi') {
      ReplacedCovers(u, i, m, x);
      assert x in Bytes(u) <==> x in Bytes(s) - Span(lo, hi);
      if u[i].Contains(x) { CoversAt(u, i, x); }
    }
  }

  lemma TrimStep(s: seq<Range>, u: seq<Range>, lo: nat, hi: nat, i: nat, end: nat)
    requires Cleared(s, u, lo, hi) && i < |u| && u[i].start == hi <= end < u[i].end
    ensures Cleared(s, Replaced(u, i, [Range(end, u[i].end)]), lo, end)
  {
    var m := [Range(end, u[i].end)];
    forall x: int ensures Covers(m, x) <==> m[0].Contains(x) {}
    ReplaceStep(s, u, lo, hi, i, m, end);
  }

  lemma EraseStep(s: seq<Range>, u: seq<Range>, lo: nat, hi: nat, i: nat)
    requires Cleared(s, u, lo, hi) && i < |u| && u[i].start == hi
    ensures Cleared(s, Replaced(u, i, []), lo, u[i].end)
  {
    ReplaceStep(s, u, lo, hi, i, [], u[i].end);
  }

  lemma SplitStep(s: seq<Range>, u: seq<Range>, lo: nat, hi: nat, i: nat)
    requires Cleared(s, u, lo, hi) && i < |u| && u[i].start < hi < u[i].end
    ensures Cleared(s, Replaced(u, i, [Range(u[i].start, hi), Range(hi, u[i].end)]), lo, hi)
  {
    var m := [Range(u[i].start, hi), Range(hi, u[i].end)];
    assert m[1..][1..] == [];
    assert Total(m[1..]) == Size(m[1..][0]) + Total(m[1..][1..]);
    forall x: int ensures Covers(m, x) <==> m[0].Contains(x) || m[1].Contains(x) {}
    ReplaceStep(s, u, lo, hi, i, m, hi);
  }

  /** Skipping a gap that no range reaches into: from the end of range `i` towards the next start. */
  lemma GapStep(s: seq<Range>, u: seq<Range>, lo: nat, hi: nat, i: int, hi': nat)
    requires Cleared(s, u, lo, hi) && hi <= hi' && -1 <= i < |u|
    requires (i >= 0 ==> u[i].end <= hi) && (i + 1 < |u| ==> hi' <= u[i + 1].start)
    ensures Cleared(s, u, lo, hi')
  {
    forall x: int ensures x in Bytes(u) <==> x in Bytes(s) - Span(lo, hi') {
      assert x in Bytes(u) <==> x in Bytes(s) - Span(lo, hi);
      if hi <= x < hi' { GapUncovered(u, i, x); }
    }
  }

  // ---------------------------------------------------------------- normal form

  /** An empty access strictly inside the chunk: the loop cuts the chunk there and clears nothing. */
  predicate Cut(r: Range, c: Range) { c.start < r.start == r.end < c.end }

  ghost predicate Cuts(r: Range, s: seq<Range>) { exists j :: 0 <= j < |s| && Cut(r, s[j]) }

  predicate Touching(t: seq<Range>, i: int) { 0 < i < |t| && t[i - 1].end == t[i].start }

  /** In normal form, but for range `i`, which may touch the one before it. */
  predicate Apart(t: seq<Range>, i: int) {
    forall j, k {:trigger Gap(t, i, j, k)} | 0 <= j <= k < |t| :: Gap(t, i, j, k)
  }

  predicate Gap(t: seq<Range>, i: int, j: int, k: int)
    requires 0 <= j <= k < |t|
  {
    if j == k then t[j].start < t[j].end
    else t[j].end < t[k].start || (j + 1 == k == i && t[j].end == t[k].start)
  }

  /** What the loop keeps of normal form; `cut` tells whether the access cuts a chunk. */
  predicate Neat(t: seq<Range>, i: int, start: nat, end: nat, cut: bool) {
    && 0 <= i < |t| && Apart(t, i)
    && (Touching(t, i) ==> t[i].start == start && (cut || start < end))
    && (t[i].start < start < t[i].end ==> cut || start < end)
    && (cut ==> start == end < t[i].end && (Touching(t, i) || t[i].start < start))
  }

  /** Normal form without empty ranges. */
  predicate Normal(s: seq<Range>) { Separated(s) && NonEmpty(s) }

  /** Normal but for a cut. */
  predicate NormalUnless(t: seq<Range>, cut: bool) { NonEmpty(t) && (Separated(t) <==> !cut) }

  lemma GapsNormal(t: seq<Range>)
    requires Apart(t, -1)
    ensures Normal(t)
  {
    forall j | 0 <= j < |t| ensures t[j].start < t[j].end { assert Gap(t, -1, j, j); }
    forall j, k | 0 <= j < k < |t| ensures t[j].end < t[k].start { assert Gap(t, -1, j, k); }
  }

  lemma NeatTrim(t: seq<Range>, i: nat, start: nat, end: nat, cut: bool)
    requires Neat(t, i, start, end, cut) && t[i].start == start <= end < t[i].end
    ensures NormalUnless(Replaced(t, i, [Range(end, t[i].end)]), cut)
  {
    var u := Replaced(t, i, [Range(end, t[i].end)]);
    forall j, k | 0 <= j <= k < |t| ensures cut || Gap(u, -1, j, k) { assert Gap(t, i, j, k); }
    if cut {
      assert u == t && u[i - 1].end == u[i].start;
      forall j | 0 <= j < |t| ensures t[j].start < t[j].end { assert Gap(t, i, j, j); }
    } else {
      GapsNormal(u);
    }
  }

  lemma NeatErase(t: seq<Range>, i: nat, start: nat, end: nat, cut: bool)
    requires Neat(t, i, start, end, cut) && t[i].start == start && t[i].end <= end
    ensures !cut && Normal(Replaced(t, i, []))
  {
    var u := Replaced(t, i, []);
    forall j, k | 0 <= j <= k < |u| ensures Gap(u, -1, j, k) {
      var a, b := if j < i then j else j + 1, if k < i then k else k + 1;
      assert Gap(t, i, a, b);
    }
    GapsNormal(u);
  }

  lemma NeatSplit(t: seq<Range>, i: nat, start: nat, end: nat, cut: bool)
    requires Neat(t, i, start, end, cut) && t[i].start < start < t[i].end
    ensures Neat(Replaced(t, i, [Range(t[i].start, start), Range(start, t[i].end)]), i + 1, start, end, cut)
  {
    var u := Replaced(t, i, [Range(t[i].start, start), Range(start, t[i].end)]);
    assert Gap(t, i, i, i) && u[i] == Range(t[i].start, start) && u[i + 1] == Range(start, t[i].end);
    var next := i + 1;
    forall j, k | 0 <= j <= k < |u| ensures Gap(u, next, j, k) {
      var a, b := if j <= i then j else j - 1, if k <= i then k else k - 1;
      assert Gap(t, i, a, b);
    }
  }

  lemma NeatSkip(t: seq<Range>, i: nat, start: nat, end: nat, cut: bool)
    requires Neat(t, i, start, end, cut) && t[i].start < start && t[i].end <= start
    ensures !cut && Normal(t)
  {
    forall j, k | 0 <= j <= k < |t| ensures Gap(t, -1, j, k) {
      assert Gap(t, i, j, k);
    }
    GapsNormal(t);
  }

  lemma NeatAgain(t: seq<Range>, i: nat, end: nat)
    requires Normal(t) && i < |t|
    ensures Neat(t, i, t[i].start, end, false)
  {
  }

  lemma NeatFirst(s: seq<Range>, r: Range, first: nat, from: nat)
    requires Normal(s) && first < |s| && s[first].start <= from && r.start <= from <= r.end
    requires (from == r.start || from == s[first].start) && (first + 1 < |s| ==> from < s[first + 1].start)
    ensures Neat(s, first, from, r.end, Cuts(r, s))
  {
    assert forall j | 0 <= j < first :: s[j].end < s[first].start;
    assert forall j | first < j < |s| :: s[first + 1].start <= s[j].start;
  }

  // ---------------------------------------------------------------- the loop itself

  /** The cursor is past the start of range `i`, so that range will be split or skipped. */
  predicate Ahead(t: seq<Range>, i: int, start: nat) { 0 <= i < |t| && t[i].start < start }

  lemma NothingCleared(s: seq<Range>, lo: nat)
    requires Disjoint(s)
    ensures Cleared(s, s, lo, lo)
  {
    assert forall j | 0 <= j < |s| :: Inside(s[j], s);
    assert Bytes(s) == Bytes(s) - Span(lo, lo);
  }

  /**
   * Subtracts one access from the unused chunks of an object: exactly the accessed bytes disappear,
   * wherever the access falls; the chunks stay disjoint and are only ever cut smaller. Chunks in
   * normal form stay so, unless the access is empty and lies strictly inside one of them.
   */
  method SubtractRange(s: seq<Range>, r: Range) returns (t: seq<Range>)
    requires Disjoint(s) && r.start <= r.end
    ensures Disjoint(t) && Refines(t, s) && Total(t) <= Total(s)
    ensures Bytes(t) == Bytes(s) - Span(r.start, r.end)
    ensures Normal(s) ==> NormalUnless(t, Cuts(r, s))
  {
    t := s;
    if t == [] {
      assert Bytes(s) == Bytes(s) - Span(r.start, r.end);
      return;
    }
    NothingCleared(s, r.start);
    var i := UpperBound(t, r.start);
    if i == 0 {
      if r.end <= t[0].start {
        assert forall j | 0 <= j < |s| :: s[0].start <= s[j].start;
        GapStep(s, t, r.start, r.start, -1, r.end);
        return;
      }
      GapStep(s, t, r.start, r.start, -1, t[0].start);
      t := SubtractFrom(s, r, 0, t[0].start);
    } else {
      t := SubtractFrom(s, r, i - 1, r.start);
    }
  }

  /** What the loop keeps: everything before `start` is cleared, and range `i` is the next to look at. */
  ghost predicate Loop(s: seq<Range>, t: seq<Range>, r: Range, i: int, start: nat) {
    && 0 <= i < |t| && t[i].start <= start <= r.end && (i + 1 < |t| ==> start < t[i + 1].start)
    && Cleared(s, t, r.start, start) && (Normal(s) ==> Neat(t, i, start, r.end, Cuts(r, s)))
  }

  ghost predicate Done(s: seq<Range>, t: seq<Range>, r: Range) {
    Cleared(s, t, r.start, r.end) && (Normal(s) ==> NormalUnless(t, Cuts(r, s)))
  }

  lemma AtTrim(s: seq<Range>, t: seq<Range>, r: Range, i: nat, start: nat)
    requires Loop(s, t, r, i, start) && start == t[i].start && r.end < t[i].end
    ensures Done(s, Replaced(t, i, [Range(r.end, t[i].end)]), r)
  {
    TrimStep(s, t, r.start, start, i, r.end);
    if Normal(s) { NeatTrim(t, i, start, r.end, Cuts(r, s)); }
  }

  lemma AtErase(s: seq<Range>, t: seq<Range>, r: Range, i: nat, start: nat, u: seq<Range>)
    requires Loop(s, t, r, i, start) && start == t[i].start && t[i].end <= r.end && u == Replaced(t, i, [])
    ensures if i == |u| || r.end < u[i].start then Done(s, u, r) else Loop(s, u, r, i, u[i].start)
  {
    EraseStep(s, t, r.start, start, i);
    assert i > 0 ==> t[i - 1].end <= t[i].start;
    if Normal(s) { NeatErase(t, i, start, r.end, Cuts(r, s)); }
    if i == |u| || r.end < u[i].start {
      GapStep(s, u, r.start, t[i].end, i - 1, r.end);
    } else {
      GapStep(s, u, r.start, t[i].end, i - 1, u[i].start);
      if Normal(s) { NeatAgain(u, i, r.end); }
    }
  }

  lemma AtSplit(s: seq<Range>, t: seq<Range>, r: Range, i: nat, start: nat)
    requires Loop(s, t, r, i, start) && t[i].start < start < t[i].end
    ensures Loop(s, Replaced(t, i, [Range(t[i].start, start), Range(start, t[i].end)]), r, i + 1, start)
  {
    SplitStep(s, t, r.start, start, i);
    if Normal(s) { NeatSplit(t, i, start, r.end, Cuts(r, s)); }
  }

  lemma AtSkip(s: seq<Range>, t: seq<Range>, r: Range, i: nat, start: nat)
    requires Loop(s, t, r, i, start) && t[i].start < start && t[i].end <= start
    ensures if i + 1 == |t| || r.end <= t[i + 1].start then Done(s, t, r) else Loop(s, t, r, i + 1, t[i + 1].start)
  {
    if Normal(s) { NeatSkip(t, i, start, r.end, Cuts(r, s)); }
    if i + 1 == |t| || r.end <= t[i + 1].start {
      GapStep(s, t, r.start, start, i, r.end);
    } else {
      GapStep(s, t, r.start, start, i, t[i + 1].start);
      if Normal(s) { NeatAgain(t, i + 1, r.end); }
    }
  }

  /** The `while (!finished)` loop, from the chunk at `first` and the first byte not yet cleared. */
  method SubtractFrom(s: seq<Range>, r: Range, first: nat, from: nat) returns (t: seq<Range>)
    requires first < |s| && s[first].start <= from <= r.end && Cleared(s, s, r.start, from)
    requires (from == r.start || from == s[first].start) && (first + 1 < |s| ==> from < s[first + 1].start)
    ensures Cleared(s, t, r.start, r.end)
    ensures Normal(s) ==> NormalUnless(t, Cuts(r, s))
  {
    t := s;
    var i: nat, start: nat, end := first, from, r.end;
    if Normal(s) { NeatFirst(s, r, first, from); }
    while true
      invariant Loop(s, t, r, i, start)
      decreases |t| - i, Ahead(t, i, start)
    {
      if start == t[i].start {
        if end < t[i].end {
          AtTrim(s, t, r, i, start);
          t := Replaced(t, i, [Range(end, t[i].end)]);
          return;
        }
        AtErase(s, t, r, i, start, Replaced(t, i, []));
        t := Replaced(t, i, []);
        if i == |t| {
          return;
        }
        if end < t[i].start {
          return;
        }
        start := t[i].start;
      } else if start < t[i].end {
        AtSplit(s, t, r, i, start);
        t := Replaced(t, i, [Range(t[i].start, start), Range(start, t[i].end)]);
        i := i + 1;
      } else {
        AtSkip(s, t, r, i, start);
        i := i + 1;
        if i == |t| {
          return;
        }
        if end <= t[i].start {
          return;
        }
        start := t[i].start;
      }
    }
  }
}
