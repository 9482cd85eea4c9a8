/** `interval_compact` (src/gpu-analysis.cu): the byte ranges of one warp-level access record. */
module WarpCompact {
  import opened Records
  import opened Ranges
  import opened BitonicWarps

  const U64: nat := 0x1_0000_0000_0000_0000

  function Add64(a: nat, b: nat): nat { (a + b) % U64 }

  predicate Flagged(flags: nat, bit: nat)
    requires bit > 0
  {
    flags / bit % 2 == 1
  }

  const READ: nat := 1

  const WRITE: nat := 2

  /** A record as the instrumentation writes it: one entry per lane, and no active access wraps the address space. */
  predicate WellFormed(r: AddressRecord) {
    && |r.active| == |r.address| == LANES && r.size < U64
    && forall i | 0 <= i < LANES && r.active[i] :: r.address[i] + r.size < U64
  }

  /** The lanes' addresses with inactive lanes cleared; address zero counts as none. */
  function Addresses(r: AddressRecord): Warp
    requires WellFormed(r)
  {
    seq(LANES, i requires 0 <= i < LANES => if r.active[i] then r.address[i] else 0)
  }

  // ---------------------------------------------------------------- ballots

  /** `__ffs` less one: the first lane set in the ballot, or -1. */
  function FirstSet(b: seq<bool>): (p: int)
    ensures -1 <= p < |b| && (p >= 0 ==> b[p])
    ensures forall i | 0 <= i < (if p < 0 then |b| else p) :: !b[i]
  {
    if b == [] then -1
    else if b[0] then 0
    else
      var p := FirstSet(b[1..]);
      if p < 0 then -1 else p + 1
  }

  /** `bfind` under a mask of the low `n` bits: the highest lane set below `n`, or -1. */
  function LastSetBelow(b: seq<bool>, n: nat): (p: int)
    requires n <= |b|
    ensures -1 <= p < n && (p >= 0 ==> b[p])
    ensures forall i | p < i < n :: !b[i]
  {
    if n == 0 then -1 else if b[n - 1] then n - 1 else LastSetBelow(b, n - 1)
  }

  function Reverse(b: seq<bool>): (r: seq<bool>)
    ensures |r| == |b| && forall i | 0 <= i < |b| :: r[i] == b[|b| - 1 - i]
  {
    seq(|b|, i requires 0 <= i < |b| => b[|b| - 1 - i])
  }

  lemma GroupUnbroken(starts: seq<bool>, rev: seq<bool>, lane: nat, p: int)
    requires |starts| == |rev| == LANES && -1 <= p < LANES - lane - 1
    requires forall i | 0 <= i < LANES :: rev[i] == starts[LANES - 1 - i]
    requires forall i | p < i < LANES - lane - 1 :: !rev[i]
    ensures forall i | lane < i < LANES - 1 - p :: !starts[i]
  {
    forall i | lane < i < LANES - 1 - p ensures !starts[i] {
      var k := LANES - 1 - i;
      assert !rev[k];
    }
  }

  /** The last lane of the group that starts at `lane`, found in the reversed ballot. */
  function GroupEnd(starts: seq<bool>, lane: nat): (p: nat)
    requires |starts| == LANES && lane < LANES
    ensures lane <= p < LANES
    ensures forall i | lane < i <= p :: !starts[i]
    ensures p + 1 < LANES ==> starts[p + 1]
  {
    var rev := Reverse(starts);
    var p := LastSetBelow(rev, LANES - lane - 1);
    GroupUnbroken(starts, rev, lane, p);
    if p >= 0 then LANES - p - 1 - 1 else LANES - 1
  }

  // ---------------------------------------------------------------- one record

  /** The first lane with a non-zero address, or -1. */
  function FirstNonZero(s: Warp): (p: int)
    ensures -1 <= p < LANES && (p >= 0 ==> s[p] != 0)
    ensures forall i | 0 <= i < (if p < 0 then LANES else p) :: s[i] == 0
  {
    var ballot := seq(LANES, i requires 0 <= i < LANES => s[i] != 0);
    assert forall i | 0 <= i < LANES :: ballot[i] == (s[i] != 0);
    FirstSet(ballot)
  }

  /** Lanes that open a range: the first non-zero one, and those beyond reach of the lane before. */
  function StartPoints(s: Warp, size: nat): (b: seq<bool>)
    ensures |b| == LANES
  {
    var first := FirstNonZero(s);
    seq(LANES, i requires 0 <= i < LANES =>
      i == first || (s[i] != 0 && Add64(s[if i == 0 then 0 else i - 1], size) < s[i]))
  }

  function LaneRange(s: Warp, size: nat, starts: seq<bool>, lane: nat): Range
    requires |starts| == LANES && lane < LANES
  {
    Range(s[lane], Add64(s[GroupEnd(starts, lane)], size))
  }

  /** The ranges pushed by the first `n` lanes. */
  function Pushed(s: Warp, size: nat, starts: seq<bool>, n: nat): seq<Range>
    requires |starts| == LANES && n <= LANES
  {
    if n == 0 then []
    else Pushed(s, size, starts, n - 1) + if starts[n - 1] then [LaneRange(s, size, starts, n - 1)] else []
  }

  predicate Fits(s: Warp, size: nat) { Ascending(s) && size < U64 && forall i | 0 <= i < LANES :: s[i] + size < U64 }

  /** What a start point means on sorted lanes, and what its absence means on a non-zero lane. */
  predicate OpensAt(s: Warp, size: nat, starts: seq<bool>, i: nat)
    requires |starts| == LANES && i < LANES
  {
    if starts[i] then s[i] != 0 && (i > 0 ==> s[i - 1] == 0 || s[i - 1] + size < s[i])
    else s[i] != 0 ==> i > 0 && s[i - 1] != 0 && s[i] <= s[i - 1] + size
  }

  predicate Opens(s: Warp, size: nat, starts: seq<bool>) {
    && |starts| == LANES && Fits(s, size)
    && forall i {:trigger OpensAt(s, size, starts, i)} | 0 <= i < LANES :: OpensAt(s, size, starts, i)
  }

  lemma StartsOpen(s: Warp, size: nat)
    requires Fits(s, size)
    ensures Opens(s, size, StartPoints(s, size))
  {
    var starts, first := StartPoints(s, size), FirstNonZero(s);
    forall i | 0 <= i < LANES ensures OpensAt(s, size, starts, i) {
      assert starts[i] == (i == first || (s[i] != 0 && Add64(s[if i == 0 then 0 else i - 1], size) < s[i]));
      StartAt(s, size, starts, first, i);
    }
  }

  lemma StartAt(s: Warp, size: nat, starts: seq<bool>, first: int, i: nat)
    requires Fits(s, size) && |starts| == LANES && i < LANES && first == FirstNonZero(s)
    requires starts[i] == (i == first || (s[i] != 0 && Add64(s[if i == 0 then 0 else i - 1], size) < s[i]))
    ensures OpensAt(s, size, starts, i)
  {
    if i > 0 && s[i] != 0 && i != first {
      assert 0 <= first < i;
      assert s[first] <= s[i - 1];
    }
  }

  /** Every non-zero lane is in the group of a start at or before it. */
  lemma {:induction false} GroupOf(s: Warp, size: nat, starts: seq<bool>, i: nat, m: nat) returns (l: nat)
    requires Opens(s, size, starts) && i <= m < LANES && s[i] != 0 && forall a | i < a <= m :: !starts[a]
    ensures l <= i && starts[l] && forall a | l < a <= m :: !starts[a]
  {
    assert OpensAt(s, size, starts, i);
    l := i;
    if !starts[i] { l := GroupOf(s, size, starts, i - 1, m); }
  }

  /** Within a group each lane reaches the next, so a byte of the group's range is in some lane's access. */
  lemma {:induction false} InGroup(s: Warp, size: nat, starts: seq<bool>, l: nat, m: nat, x: int) returns (i: nat)
    requires Opens(s, size, starts) && l <= m < LANES && s[l] != 0 && s[l] <= x < s[m] + size
    requires forall a | l < a <= m :: !starts[a]
    ensures l <= i <= m && s[i] != 0 && s[i] <= x < s[i] + size
    decreases m - l
  {
    if s[m] <= x {
      i := m;
    } else {
      assert OpensAt(s, size, starts, m);
      i := InGroup(s, size, starts, l, m - 1, x);
    }
  }

  /** Lane `l` pushes a range that contains byte `x`. */
  predicate Pushes(s: Warp, size: nat, starts: seq<bool>, l: int, x: int)
    requires |starts| == LANES
  {
    0 <= l < LANES && starts[l] && LaneRange(s, size, starts, l).Contains(x)
  }

  lemma {:induction false} PushedCovers(s: Warp, size: nat, starts: seq<bool>, n: nat, x: int)
    requires |starts| == LANES && n <= LANES
    ensures Covers(Pushed(s, size, starts, n), x) <==> exists l :: l < n && Pushes(s, size, starts, l, x)
  {
    if n > 0 {
      var before := Pushed(s, size, starts, n - 1);
      PushedCovers(s, size, starts, n - 1, x);
      if starts[n - 1] {
        var r := LaneRange(s, size, starts, n - 1);
        CoversConcat(before, [r], x);
        assert Covers([r], x) <==> Pushes(s, size, starts, n - 1, x) by { assert [r][0] == r; }
      } else {
        assert Pushed(s, size, starts, n) == before;
      }
    }
  }

  /** The range of a start lies before every later start. */
  lemma RangeBefore(s: Warp, size: nat, starts: seq<bool>, l: nat, m: nat)
    requires Opens(s, size, starts) && l < m < LANES && starts[l] && starts[m]
    ensures LaneRange(s, size, starts, l).end < s[m]
  {
    var p := GroupEnd(starts, l);
    assert OpensAt(s, size, starts, l) && OpensAt(s, size, starts, p + 1);
    assert s[l] <= s[p] && s[p + 1] <= s[m];
  }

  lemma {:induction false} PushedBelow(s: Warp, size: nat, starts: seq<bool>, n: nat, m: nat)
    requires Opens(s, size, starts) && n <= m < LANES && starts[m]
    ensures forall k | 0 <= k < |Pushed(s, size, starts, n)| :: Pushed(s, size, starts, n)[k].end < s[m]
  {
    if n > 0 {
      PushedBelow(s, size, starts, n - 1, m);
      if starts[n - 1] { RangeBefore(s, size, starts, n - 1, m); }
    }
  }

  lemma {:induction false} PushedSeparated(s: Warp, size: nat, starts: seq<bool>, n: nat)
    requires Opens(s, size, starts) && n <= LANES
    ensures Separated(Pushed(s, size, starts, n))
  {
    if n > 0 {
      PushedSeparated(s, size, starts, n - 1);
      if starts[n - 1] {
        PushedBelow(s, size, starts, n - 1, n - 1);
        RangeProper(s, size, starts, n - 1);
        SeparatedMore(Pushed(s, size, starts, n - 1), LaneRange(s, size, starts, n - 1));
      }
    }
  }

  lemma RangeProper(s: Warp, size: nat, starts: seq<bool>, l: nat)
    requires |starts| == LANES && Fits(s, size) && l < LANES
    ensures var r := LaneRange(s, size, starts, l); r.start == s[l] <= r.end == s[GroupEnd(starts, l)] + size
  {
  }

  lemma SeparatedMore(rs: seq<Range>, r: Range)
    requires Separated(rs) && r.start <= r.end && forall k | 0 <= k < |rs| :: rs[k].end < r.start
    ensures Separated(rs + [r])
  {
  }

  // ---------------------------------------------------------------- the claim

  /** Byte `x` is accessed by an active lane with a non-zero address. */
  predicate Accessed(r: AddressRecord, x: int)
    requires WellFormed(r)
  {
    exists i :: 0 <= i < LANES && r.active[i] && r.address[i] != 0 && r.address[i] <= x < r.address[i] + r.size
  }

  /** Some lane of the warp accesses byte `x`. */
  predicate Reached(s: Warp, size: nat, x: int) {
    exists i :: 0 <= i < LANES && s[i] != 0 && s[i] <= x < s[i] + size
  }

  lemma ReachedPermuted(a: Warp, s: Warp, size: nat, x: int)
    requires multiset(a) == multiset(s) && Reached(a, size, x)
    ensures Reached(s, size, x)
  {
    var i :| 0 <= i < LANES && a[i] != 0 && a[i] <= x < a[i] + size;
    assert a[i] in multiset(s);
    var k :| 0 <= k < LANES && s[k] == a[i];
  }

  lemma FitsPermuted(r: AddressRecord, s: Warp)
    requires WellFormed(r) && Ascending(s) && multiset(s) == multiset(Addresses(r))
    ensures Fits(s, r.size)
  {
    var a := Addresses(r);
    forall i | 0 <= i < LANES ensures s[i] + r.size < U64 {
      assert s[i] in multiset(a);
    }
  }

  lemma AddressesReach(r: AddressRecord, x: int)
    requires WellFormed(r)
    ensures Accessed(r, x) <==> Reached(Addresses(r), r.size, x)
  {
    var a := Addresses(r);
    if i :| 0 <= i < LANES && r.active[i] && r.address[i] != 0 && r.address[i] <= x < r.address[i] + r.size {
      assert a[i] == r.address[i];
    }
    if i :| 0 <= i < LANES && a[i] != 0 && a[i] <= x < a[i] + r.size {
      assert r.active[i];
    }
  }

  lemma GroupsReach(s: Warp, size: nat, starts: seq<bool>, x: int)
    requires Opens(s, size, starts)
    ensures (exists l :: l < LANES && Pushes(s, size, starts, l, x)) <==> Reached(s, size, x)
  {
    if l :| l < LANES && Pushes(s, size, starts, l, x) {
      assert OpensAt(s, size, starts, l);
      RangeProper(s, size, starts, l);
      var i := InGroup(s, size, starts, l, GroupEnd(starts, l), x);
    }
    if i :| 0 <= i < LANES && s[i] != 0 && s[i] <= x < s[i] + size {
      var l := GroupOf(s, size, starts, i, i);
      RangeProper(s, size, starts, l);
      assert i <= GroupEnd(starts, l);
      assert s[l] <= s[i] && s[i] <= s[GroupEnd(starts, l)];
      assert Pushes(s, size, starts, l, x);
    }
  }

  /** The ranges a record is compacted to. */
  function Compacted(r: AddressRecord): seq<Range>
    requires WellFormed(r)
  {
    var s := WarpSort(Addresses(r));
    Pushed(s, r.size, StartPoints(s, r.size), LANES)
  }

  /**
   * The ranges of a record are in order, with a strict gap between neighbours, and cover exactly the
   * union of the accesses of its active lanes with a non-zero address.
   */
  lemma CompactExact(r: AddressRecord)
    requires WellFormed(r)
    ensures Separated(Compacted(r)) && forall x: int :: Covers(Compacted(r), x) <==> Accessed(r, x)
  {
    var a := Addresses(r);
    WarpSortSorts(a);
    SortedExact(r, a, WarpSort(a));
  }

  lemma SortedExact(r: AddressRecord, a: Warp, s: Warp)
    requires WellFormed(r) && a == Addresses(r) && Ascending(s) && multiset(s) == multiset(a)
    ensures var out := Pushed(s, r.size, StartPoints(s, r.size), LANES);
            Separated(out) && forall x: int :: Covers(out, x) <==> Accessed(r, x)
  {
    var starts := StartPoints(s, r.size);
    FitsPermuted(r, s);
    StartsOpen(s, r.size);
    PushedSeparated(s, r.size, starts, LANES);
    forall x: int ensures Covers(Pushed(s, r.size, starts, LANES), x) <==> Accessed(r, x) {
      PushedCovers(s, r.size, starts, LANES, x);
      GroupsReach(s, r.size, starts, x);
      AddressesReach(r, x);
      if Reached(s, r.size, x) { ReachedPermuted(s, a, r.size, x); }
      if Reached(a, r.size, x) { ReachedPermuted(a, s, r.size, x); }
    }
  }

  /** Compacting a record into the read and the write buffer, lane by lane. */
  method IntervalCompact(r: AddressRecord) returns (readRanges: seq<Range>, writeRanges: seq<Range>)
    requires WellFormed(r)
    ensures readRanges == if Flagged(r.flags, READ) then Compacted(r) else []
    ensures writeRanges == if Flagged(r.flags, WRITE) then Compacted(r) else []
  {
    var s := WarpSort(Addresses(r));
    var pushed := PushLanes(s, r.size, StartPoints(s, r.size));
    readRanges := if Flagged(r.flags, READ) then pushed else [];
    writeRanges := if Flagged(r.flags, WRITE) then pushed else [];
  }

  method PushLanes(s: Warp, size: nat, starts: seq<bool>) returns (out: seq<Range>)
    requires |starts| == LANES
    ensures out == Pushed(s, size, starts, LANES)
  {
    out := [];
    for lane := 0 to LANES
      invariant out == Pushed(s, size, starts, lane)
    {
      if starts[lane] { out := out + [LaneRange(s, size, starts, lane)]; }
    }
  }
}
