/** `interval_merge_impl` (src/gpu-analysis.cu): merging one tile of ranges by a sweep over sorted end points. */
module SweepMerge {
  import opened Ranges

  const MAX_U64: nat := 0xFFFF_FFFF_FFFF_FFFF

  /** Addresses from here on collide with the sentinel, or are lost, when shifted left by one bit. */
  const ADDRESS_LIMIT: nat := 0x7FFF_FFFF_FFFF_FFFF

  /** A tile item: the shifted address, and +1 for a start, -1 for an end, 0 for padding. */
  datatype Event = Event(key: nat, val: int)

  predicate Small(rs: seq<Range>) { forall i | 0 <= i < |rs| :: rs[i].start <= rs[i].end < ADDRESS_LIMIT }

  function Shl1(x: nat): nat { x * 2 % 0x1_0000_0000_0000_0000 }

  function StartEvent(w: nat): Event { if w == MAX_U64 then Event(MAX_U64, 0) else Event(Shl1(w), 1) }

  function EndEvent(w: nat): Event {
    var key := if w == MAX_U64 then w else Shl1(w) + 1;
    Event(key, if key == MAX_U64 then 0 else -1)
  }

  /** The loaded tile: two items per range, then `pad` sentinels. */
  function Tile(rs: seq<Range>, pad: nat): seq<Event> {
    if rs != [] then [StartEvent(rs[0].start), EndEvent(rs[0].end)] + Tile(rs[1..], pad)
    else seq(pad, i => Event(MAX_U64, 0))
  }

  /** The payload is determined by the key: starts are even, ends are odd. */
  predicate Signed(e: Event) {
    if e.key == MAX_U64 then e.val == 0 else e.key < MAX_U64 && e.val == if e.key % 2 == 0 then 1 else -1
  }

  // ---------------------------------------------------------------- sums over events

  function Sum(ev: seq<Event>): int { if ev == [] then 0 else ev[0].val + Sum(ev[1..]) }

  /** The sum of the payloads with a key below `t`. */
  function SumBelow(ev: seq<Event>, t: nat): int {
    if ev == [] then 0 else (if ev[0].key < t then ev[0].val else 0) + SumBelow(ev[1..], t)
  }

  lemma {:induction false} SumBelowConcat(a: seq<Event>, b: seq<Event>, t: nat)
    ensures SumBelow(a + b, t) == SumBelow(a, t) + SumBelow(b, t)
  {
    if a == [] {
      assert a + b == b;
    } else {
      SumBelowConcat(a[1..], b, t);
      assert (a + b)[1..] == a[1..] + b;
    }
  }

  lemma RestPermuted(a: seq<Event>, b: seq<Event>, i: nat)
    requires multiset(a) == multiset(b) && a != [] && i < |b| && b[i] == a[0]
    ensures multiset(a[1..]) == multiset(b[..i] + b[i + 1..])
  {
    assert a == [a[0]] + a[1..];
    assert multiset(a) == multiset{a[0]} + multiset(a[1..]);
    assert b == b[..i] + ([b[i]] + b[i + 1..]);
    assert multiset(b) == multiset(b[..i] + b[i + 1..]) + multiset{b[i]};
    assert multiset(a[1..]) == multiset(a) - multiset{a[0]};
  }

  /** Sums do not depend on the order: whatever the sort does, it keeps them. */
  lemma {:induction false} SumBelowPermuted(a: seq<Event>, b: seq<Event>, t: nat)
    requires multiset(a) == multiset(b)
    ensures SumBelow(a, t) == SumBelow(b, t)
    decreases |a|
  {
    if a == [] {
      assert |b| == |multiset(b)| == 0;
    } else {
      assert a[0] in multiset(b);
      var i :| 0 <= i < |b| && b[i] == a[0];
      var rest := b[..i] + b[i + 1..];
      assert b == b[..i] + ([b[i]] + b[i + 1..]);
      RestPermuted(a, b, i);
      SumBelowPermuted(a[1..], rest, t);
      SumBelowConcat(b[..i], [b[i]] + b[i + 1..], t);
      SumBelowConcat([b[i]], b[i + 1..], t);
      SumBelowConcat(b[..i], b[i + 1..], t);
      assert SumBelow([b[i]], t) == if b[i].key < t then b[i].val else 0;
    }
  }

  /** How many ranges have begun and not ended below `t`; for `t == 2x + 2`, how many contain byte `x`. */
  function Open(rs: seq<Range>, t: nat): nat {
    if rs == [] then 0 else (if rs[0].start * 2 < t <= rs[0].end * 2 + 1 then 1 else 0) + Open(rs[1..], t)
  }

  lemma {:induction false} OpenCovers(rs: seq<Range>, x: nat)
    requires Proper(rs)
    ensures Open(rs, 2 * x + 2) > 0 <==> Covers(rs, x)
  {
    if rs != [] {
      OpenCovers(rs[1..], x);
      CoversHead(rs, x);
    }
  }

  lemma {:induction false} TileSums(rs: seq<Range>, pad: nat, t: nat)
    requires Small(rs) && t <= MAX_U64
    ensures SumBelow(Tile(rs, pad), t) == Open(rs, t)
  {
    if rs == [] {
      PaddingSums(Tile(rs, pad), t);
    } else {
      TileSums(rs[1..], pad, t);
      var pair := [StartEvent(rs[0].start), EndEvent(rs[0].end)];
      SumBelowConcat(pair, Tile(rs[1..], pad), t);
      RangeSum(rs[0], t);
      assert Tile(rs, pad) == pair + Tile(rs[1..], pad);
    }
  }

  lemma RangeSum(r: Range, t: nat)
    requires Small([r]) && t <= MAX_U64
    ensures SumBelow([StartEvent(r.start), EndEvent(r.end)], t) == if r.start * 2 < t <= r.end * 2 + 1 then 1 else 0
  {
    assert [r][0] == r;
    PairSum(StartEvent(r.start), EndEvent(r.end), t);
  }

  lemma PairSum(first: Event, last: Event, t: nat)
    ensures SumBelow([first, last], t)
         == (if first.key < t then first.val else 0) + (if last.key < t then last.val else 0)
  {
    assert [first, last][1..] == [last] && [last][1..] == [];
    assert SumBelow([last], t) == if last.key < t then last.val else 0;
  }

  lemma {:induction false} TileSigned(rs: seq<Range>, pad: nat)
    requires Small(rs)
    ensures |Tile(rs, pad)| == 2 * |rs| + pad && forall i | 0 <= i < |Tile(rs, pad)| :: Signed(Tile(rs, pad)[i])
  {
    if rs != [] { TileSigned(rs[1..], pad); }
  }

  lemma {:induction false} PaddingSums(ev: seq<Event>, t: nat)
    requires t <= MAX_U64 && forall i | 0 <= i < |ev| :: ev[i].key == MAX_U64
    ensures SumBelow(ev, t) == 0
  {
    if ev != [] { PaddingSums(ev[1..], t); }
  }

  lemma {:induction false} OpenAll(rs: seq<Range>)
    requires Small(rs)
    ensures Open(rs, MAX_U64) == 0
  {
    if rs != [] { OpenAll(rs[1..]); }
  }

  // ---------------------------------------------------------------- sorted events

  predicate SortedByKey(ev: seq<Event>) { forall i, j | 0 <= i < j < |ev| :: ev[i].key <= ev[j].key }

  /** A sorted tile whose open count never dips below zero between keys and ends at zero. */
  ghost predicate Balanced(ev: seq<Event>) {
    && SortedByKey(ev) && (forall i | 0 <= i < |ev| :: Signed(ev[i]))
    && (forall t: nat | t <= MAX_U64 :: SumBelow(ev, t) >= 0) && SumBelow(ev, MAX_U64) == 0
  }

  /** The inclusive scan: how many ranges are open after the first `n` events. */
  function Depth(ev: seq<Event>, n: nat): int
    requires n <= |ev|
  {
    if n == 0 then 0 else Depth(ev, n - 1) + ev[n - 1].val
  }

  /** Between two different keys the scan is the sum below the later one. */
  lemma {:induction false} DepthBelow(ev: seq<Event>, n: nat, t: nat)
    requires n <= |ev| && (forall i | 0 <= i < n :: ev[i].key < t) && (forall i | n <= i < |ev| :: ev[i].key >= t)
    ensures Depth(ev, n) == SumBelow(ev, t)
  {
    assert ev == ev[..n] + ev[n..];
    SumBelowConcat(ev[..n], ev[n..], t);
    DepthPrefix(ev, n, t);
    NoneBelow(ev[n..], t);
  }

  lemma {:induction false} DepthPrefix(ev: seq<Event>, n: nat, t: nat)
    requires n <= |ev| && forall i | 0 <= i < n :: ev[i].key < t
    ensures SumBelow(ev[..n], t) == Depth(ev, n)
  {
    if n != 0 {
      DepthPrefix(ev, n - 1, t);
      assert ev[..n] == ev[..n - 1] + [ev[n - 1]];
      SumBelowConcat(ev[..n - 1], [ev[n - 1]], t);
      assert [ev[n - 1]][1..] == [];
    }
  }

  lemma {:induction false} NoneBelow(ev: seq<Event>, t: nat)
    requires forall i | 0 <= i < |ev| :: ev[i].key >= t
    ensures SumBelow(ev, t) == 0
  {
    if ev != [] { NoneBelow(ev[1..], t); }
  }

  /** The scan is never negative, not even between events with the same key. */
  lemma {:induction false} DepthNonNegative(ev: seq<Event>, n: nat)
    requires Balanced(ev) && n <= |ev|
    ensures Depth(ev, n) >= 0
    decreases n
  {
    if n > 0 {
      if ev[n - 1].val >= 0 {
        DepthNonNegative(ev, n - 1);
      } else {
        DepthAfterEnd(ev, n);
      }
    }
  }

  lemma {:induction false} DepthAfterEnd(ev: seq<Event>, n: nat)
    requires Balanced(ev) && 0 < n <= |ev| && ev[n - 1].val < 0
    ensures Depth(ev, n) >= 0
    decreases |ev| - n
  {
    if n < |ev| && ev[n].key == ev[n - 1].key {
      DepthAfterEnd(ev, n + 1);
    } else {
      DepthBelow(ev, n, ev[n - 1].key + 1);
    }
  }

  // ---------------------------------------------------------------- start and end marks

  /** An event that closes the last open range. */
  predicate EndMark(ev: seq<Event>, i: nat)
    requires i < |ev|
  {
    ev[i].key != MAX_U64 && Depth(ev, i + 1) == 0
  }

  /** An event where the end marks change, other than at an end mark: the first, or one after an end. */
  predicate StartMark(ev: seq<Event>, i: nat)
    requires i < |ev|
  {
    ev[i].key != MAX_U64 && !EndMark(ev, i) && (i == 0 || EndMark(ev, i - 1))
  }

  /** The addresses scattered to the start and the end slots by the first `n` events. */
  function Starts(ev: seq<Event>, n: nat): seq<nat>
    requires n <= |ev|
  {
    if n == 0 then []
    else Starts(ev, n - 1) + if StartMark(ev, n - 1) then [ev[n - 1].key / 2] else []
  }

  function Ends(ev: seq<Event>, n: nat): seq<nat>
    requires n <= |ev|
  {
    if n == 0 then []
    else Ends(ev, n - 1) + if EndMark(ev, n - 1) && ev[n - 1].key > 0 then [(ev[n - 1].key - 1) / 2] else []
  }

  /** What a mark says about its event: nothing was open before a start, an end is odd, a start even. */
  lemma MarkFacts(ev: seq<Event>, i: nat)
    requires Balanced(ev) && i < |ev|
    ensures EndMark(ev, i) ==> ev[i].key % 2 == 1 && Depth(ev, i) == 1
    ensures ev[i].key != MAX_U64 ==> (StartMark(ev, i) <==> Depth(ev, i) == 0)
    ensures StartMark(ev, i) ==> ev[i].key % 2 == 0
  {
    DepthNonNegative(ev, i);
    DepthNonNegative(ev, i + 1);
    assert Signed(ev[i]);
    if i > 0 && ev[i].key != MAX_U64 {
      assert ev[i - 1].key <= ev[i].key && Signed(ev[i]) && Signed(ev[i - 1]);
    }
  }

  /** Starts and ends alternate: they are equal in number exactly when nothing is open. */
  lemma {:induction false} MarksPair(ev: seq<Event>, n: nat)
    requires Balanced(ev) && n <= |ev|
    ensures |Starts(ev, n)| == |Ends(ev, n)| + if Depth(ev, n) > 0 then 1 else 0
  {
    if n > 0 {
      MarksPair(ev, n - 1);
      MarkFacts(ev, n - 1);
      DepthNonNegative(ev, n - 1);
      assert Signed(ev[n - 1]);
    }
  }

  /** Each start is at most its end, each end below the next start, and all below the last key. */
  ghost predicate Alternating(ss: seq<nat>, es: seq<nat>, key: nat) {
    && |es| <= |ss|
    && (forall k | 0 <= k < |ss| :: 2 * ss[k] <= key)
    && (forall k | 0 <= k < |es| :: ss[k] <= es[k] < ADDRESS_LIMIT && 2 * es[k] + 1 <= key)
    && (forall k {:trigger Gap(ss, es, k)} | 0 <= k < |ss| - 1 && k < |es| :: Gap(ss, es, k))
  }

  predicate Gap(ss: seq<nat>, es: seq<nat>, k: int) { 0 <= k < |ss| - 1 && k < |es| && es[k] < ss[k + 1] }

  lemma AlternatingStart(ss: seq<nat>, es: seq<nat>, key: nat, key': nat)
    requires Alternating(ss, es, key) && |ss| == |es| && key <= key' && key' % 2 == 0
    ensures Alternating(ss + [key' / 2], es, key')
  {
    var ss' := ss + [key' / 2];
    forall k | 0 <= k < |ss| && k < |es| ensures Gap(ss', es, k) {
      assert k < |ss| - 1 ==> Gap(ss, es, k);
    }
  }

  lemma AlternatingEnd(ss: seq<nat>, es: seq<nat>, key: nat, key': nat)
    requires Alternating(ss, es, key) && |ss| == |es| + 1 && key <= key' < MAX_U64 && key' % 2 == 1
    ensures Alternating(ss, es + [(key' - 1) / 2], key')
  {
    var es' := es + [(key' - 1) / 2];
    forall k | 0 <= k < |ss| - 1 ensures Gap(ss, es', k) {
      assert Gap(ss, es, k);
    }
  }

  lemma {:induction false} MarksOrdered(ev: seq<Event>, n: nat)
    requires Balanced(ev) && n <= |ev|
    ensures Alternating(Starts(ev, n), Ends(ev, n), if n == 0 then 0 else ev[n - 1].key)
  {
    if n > 0 {
      MarksOrdered(ev, n - 1);
      MarkOrdered(ev, n - 1, if n == 1 then 0 else ev[n - 2].key);
    }
  }

  lemma MarkOrdered(ev: seq<Event>, n: nat, key: nat)
    requires Balanced(ev) && n < |ev| && key <= ev[n].key && Alternating(Starts(ev, n), Ends(ev, n), key)
    ensures Alternating(Starts(ev, n + 1), Ends(ev, n + 1), ev[n].key)
  {
    MarksPair(ev, n);
    MarkFacts(ev, n);
    if !StartMark(ev, n) { assert Starts(ev, n + 1) == Starts(ev, n); }
    if !EndMark(ev, n) { assert Ends(ev, n + 1) == Ends(ev, n); }
    if StartMark(ev, n) {
      AlternatingStart(Starts(ev, n), Ends(ev, n), key, ev[n].key);
    } else if EndMark(ev, n) {
      assert Signed(ev[n]);
      AlternatingEnd(Starts(ev, n), Ends(ev, n), key, ev[n].key);
    }
  }

  lemma MarksBelow(ev: seq<Event>, n: nat, x: nat)
    requires Balanced(ev) && 0 < n <= |ev| && ev[n - 1].key <= 2 * x + 1
    ensures forall k | 0 <= k < |Starts(ev, n)| :: Starts(ev, n)[k] <= x
    ensures forall k | 0 <= k < |Ends(ev, n)| :: Ends(ev, n)[k] <= x
  {
    MarksOrdered(ev, n);
  }

  /** Marks among the first `p` events are at or below `x`, later ones above it. */
  lemma {:induction false} StartsSplit(ev: seq<Event>, p: nat, n: nat, x: nat)
    requires Balanced(ev) && p <= n <= |ev|
    requires (forall i | 0 <= i < p :: ev[i].key <= 2 * x + 1) && (forall i | p <= i < |ev| :: ev[i].key > 2 * x + 1)
    ensures |Starts(ev, p)| <= |Starts(ev, n)|
    ensures forall k | 0 <= k < |Starts(ev, n)| :: Starts(ev, n)[k] <= x <==> k < |Starts(ev, p)|
    decreases n
  {
    if n > p {
      StartsSplit(ev, p, n - 1, x);
      MarkFacts(ev, n - 1);
    } else if n > 0 {
      MarksBelow(ev, n, x);
    }
  }

  lemma {:induction false} EndsSplit(ev: seq<Event>, p: nat, n: nat, x: nat)
    requires Balanced(ev) && p <= n <= |ev|
    requires (forall i | 0 <= i < p :: ev[i].key <= 2 * x + 1) && (forall i | p <= i < |ev| :: ev[i].key > 2 * x + 1)
    ensures |Ends(ev, p)| <= |Ends(ev, n)|
    ensures forall k | 0 <= k < |Ends(ev, n)| :: Ends(ev, n)[k] <= x <==> k < |Ends(ev, p)|
    decreases n
  {
    if n > p {
      EndsSplit(ev, p, n - 1, x);
      MarkFacts(ev, n - 1);
    } else if n > 0 {
      MarksBelow(ev, n, x);
    }
  }

  // ---------------------------------------------------------------- the merged ranges

  function Zip(ss: seq<nat>, es: seq<nat>): seq<Range>
    requires |es| <= |ss|
  {
    seq(|es|, k requires 0 <= k < |es| => Range(ss[k], es[k]))
  }

  lemma {:induction false} ZipSeparated(ss: seq<nat>, es: seq<nat>, key: nat, i: nat, j: nat)
    requires Alternating(ss, es, key) && i < j < |es|
    ensures es[i] < ss[j]
    decreases j
  {
    if i < j - 1 {
      ZipSeparated(ss, es, key, i, j - 1);
      assert ss[j - 1] <= es[j - 1];
    }
    assert Gap(ss, es, j - 1);
  }

  lemma {:induction false} SplitPoint(ev: seq<Event>, key: nat) returns (p: nat)
    requires SortedByKey(ev)
    ensures p <= |ev| && (forall i | 0 <= i < p :: ev[i].key <= key) && (forall i | p <= i < |ev| :: ev[i].key > key)
  {
    p := 0;
    while p < |ev| && ev[p].key <= key
      invariant p <= |ev| && forall i | 0 <= i < p :: ev[i].key <= key
    {
      p := p + 1;
    }
  }

  /** The swept ranges are separated and contain byte `x` exactly when some range is open there. */
  lemma SweptRanges(ev: seq<Event>, x: nat)
    requires Balanced(ev) && 2 * x + 2 <= MAX_U64
    ensures |Starts(ev, |ev|)| == |Ends(ev, |ev|)|
    ensures Covers(Zip(Starts(ev, |ev|), Ends(ev, |ev|)), x) <==> SumBelow(ev, 2 * x + 2) > 0
  {
    var n := |ev|;
    var p := SplitPoint(ev, 2 * x + 1);
    DepthBelow(ev, p, 2 * x + 2);
    DepthNonNegative(ev, p);
    MarksPair(ev, p);
    AllClosed(ev);
    MarksPair(ev, n);
    StartsSplit(ev, p, n, x);
    EndsSplit(ev, p, n, x);
    var out := Zip(Starts(ev, n), Ends(ev, n));
    if SumBelow(ev, 2 * x + 2) > 0 {
      assert out[|Ends(ev, p)|].Contains(x);
    }
  }

  lemma AllClosed(ev: seq<Event>)
    requires Balanced(ev)
    ensures Depth(ev, |ev|) == 0
  {
    var n := SplitPoint(ev, MAX_U64 - 1);
    DepthBelow(ev, n, MAX_U64);
    PaddingFlat(ev, n, |ev|);
  }

  lemma {:induction false} PaddingFlat(ev: seq<Event>, p: nat, n: nat)
    requires p <= n <= |ev| && forall i | p <= i < |ev| :: ev[i].key >= MAX_U64 && Signed(ev[i])
    ensures Depth(ev, n) == Depth(ev, p)
  {
    if n > p { PaddingFlat(ev, p, n - 1); }
  }

  // ---------------------------------------------------------------- the block primitives

  /** The radix sort of the block, by its specification: ascending keys, same items. */
  function SortByKey(ev: seq<Event>): (s: seq<Event>)
    ensures SortedByKey(s) && multiset(s) == multiset(ev)
  {
    if ev == [] then [] else
      assert ev == [ev[0]] + ev[1..];
      Insert(ev[0], SortByKey(ev[1..]))
  }

  lemma SortedCons(e: Event, s: seq<Event>)
    requires SortedByKey(s) && (s == [] || e.key <= s[0].key)
    ensures SortedByKey([e] + s)
  {
  }

  function Insert(e: Event, s: seq<Event>): (r: seq<Event>)
    requires SortedByKey(s)
    ensures SortedByKey(r) && multiset(r) == multiset(s) + multiset{e}
    ensures r != [] && r[0] == if s == [] || e.key <= s[0].key then e else s[0]
  {
    if s == [] || e.key <= s[0].key then [e] + s
    else
      var rest := Insert(e, s[1..]);
      assert s == [s[0]] + s[1..];
      SortedCons(s[0], rest);
      [s[0]] + rest
  }

  function PrefixSum(v: seq<int>, n: nat): int
    requires n <= |v|
  {
    if n == 0 then 0 else PrefixSum(v, n - 1) + v[n - 1]
  }

  /** The inclusive scan of the block. */
  method InclusiveSum(v: seq<int>) returns (sums: seq<int>)
    ensures |sums| == |v| && forall i | 0 <= i < |v| :: sums[i] == PrefixSum(v, i + 1)
  {
    sums := [];
    var sum := 0;
    for i := 0 to |v|
      invariant |sums| == i && sum == PrefixSum(v, i)
      invariant forall k | 0 <= k < i :: sums[k] == PrefixSum(v, k + 1)
    {
      sum := sum + v[i];
      sums := sums + [sum];
    }
  }

  /** Flags the first item and every item that differs from the one before. */
  function FlagHeads(v: seq<int>): (heads: seq<int>)
    ensures |heads| == |v|
    ensures forall i | 0 <= i < |v| :: heads[i] == if i == 0 || v[i] != v[i - 1] then 1 else 0
  {
    seq(|v|, i requires 0 <= i < |v| => if i == 0 || v[i] != v[i - 1] then 1 else 0)
  }

  lemma {:induction false} ScanIsDepth(ev: seq<Event>, vals: seq<int>, n: nat)
    requires |vals| == |ev| && n <= |ev| && forall i | 0 <= i < |ev| :: vals[i] == ev[i].val
    ensures PrefixSum(vals, n) == Depth(ev, n)
  {
    if n > 0 { ScanIsDepth(ev, vals, n - 1); }
  }

  predicate MarkedBy(ev: seq<Event>, starts: seq<int>, ends: seq<int>) {
    && |starts| == |ends| == |ev|
    && (forall i | 0 <= i < |ev| :: starts[i] == if StartMark(ev, i) then 1 else 0)
    && (forall i | 0 <= i < |ev| :: ends[i] == if EndMark(ev, i) then 1 else 0)
  }

  /** The marks of a sorted tile, by scan and flags as the block computes them. */
  method Marks(ev: seq<Event>) returns (starts: seq<int>, ends: seq<int>)
    ensures MarkedBy(ev, starts, ends)
  {
    var vals := seq(|ev|, i requires 0 <= i < |ev| => ev[i].val);
    var scan := InclusiveSum(vals);
    forall i | 0 <= i < |ev| ensures scan[i] == Depth(ev, i + 1) { ScanIsDepth(ev, vals, i + 1); }
    ends := seq(|ev|, i requires 0 <= i < |ev| => if ev[i].key != MAX_U64 && scan[i] == 0 then 1 else 0);
    var heads := FlagHeads(ends);
    starts := seq(|ev|, i requires 0 <= i < |ev| =>
      if ev[i].key != MAX_U64 && heads[i] == 1 && ends[i] != 1 then 1 else 0);
    assert forall i | 0 <= i < |ev| :: ends[i] == if EndMark(ev, i) then 1 else 0;
  }

  /** The values at the marked positions, in order. */
  function Picked(marks: seq<int>, vals: seq<nat>, n: nat): seq<nat>
    requires n <= |marks| == |vals|
  {
    if n == 0 then [] else Picked(marks, vals, n - 1) + if marks[n - 1] == 1 then [vals[n - 1]] else []
  }

  lemma {:induction false} PickedCount(marks: seq<int>, vals: seq<nat>, i: nat, n: nat)
    requires i <= n <= |marks| == |vals| && forall k | 0 <= k < |marks| :: marks[k] == 0 || marks[k] == 1
    ensures |Picked(marks, vals, n)| == PrefixSum(marks, n) && |Picked(marks, vals, i)| <= |Picked(marks, vals, n)|
    decreases n
  {
    if n > 0 { PickedCount(marks, vals, if i < n then i else n - 1, n - 1); }
  }

  /** The scatter: each marked value goes to the slot its running count names. */
  method Scatter(marks: seq<int>, vals: seq<nat>) returns (out: seq<nat>)
    requires |marks| == |vals| && forall k | 0 <= k < |marks| :: marks[k] == 0 || marks[k] == 1
    ensures out == Picked(marks, vals, |marks|)
  {
    var n := |marks|;
    var index := InclusiveSum(marks);
    PickedCount(marks, vals, n, n);
    var slots := new nat[if n == 0 then 0 else index[n - 1]];
    for i := 0 to n
      invariant |Picked(marks, vals, i)| <= slots.Length
      invariant slots[..|Picked(marks, vals, i)|] == Picked(marks, vals, i)
    {
      PickedCount(marks, vals, i + 1, n);
      PickedCount(marks, vals, i, i + 1);
      if marks[i] == 1 {
        slots[index[i] - 1] := vals[i];
      }
    }
    out := slots[..];
  }

  lemma {:induction false} PickedMarks(
    ev: seq<Event>, starts: seq<int>, ends: seq<int>, ss: seq<nat>, es: seq<nat>, n: nat)
    requires Balanced(ev) && MarkedBy(ev, starts, ends) && n <= |ev| == |ss| == |es|
    requires forall i | 0 <= i < |ev| :: ss[i] == ev[i].key / 2 && (ev[i].key > 0 ==> es[i] == (ev[i].key - 1) / 2)
    ensures Picked(starts, ss, n) == Starts(ev, n) && Picked(ends, es, n) == Ends(ev, n)
  {
    if n > 0 {
      PickedMarks(ev, starts, ends, ss, es, n - 1);
      MarkFacts(ev, n - 1);
    }
  }

  // ---------------------------------------------------------------- the whole tile

  lemma TileBalanced(rs: seq<Range>, pad: nat, ev: seq<Event>)
    requires Small(rs) && SortedByKey(ev) && multiset(ev) == multiset(Tile(rs, pad))
    ensures Balanced(ev)
    ensures forall t: nat | t <= MAX_U64 :: SumBelow(ev, t) == Open(rs, t)
  {
    TileSigned(rs, pad);
    forall i | 0 <= i < |ev| ensures Signed(ev[i]) {
      assert ev[i] in multiset(Tile(rs, pad));
    }
    forall t: nat | t <= MAX_U64 ensures SumBelow(ev, t) == Open(rs, t) {
      SumBelowPermuted(ev, Tile(rs, pad), t);
      TileSums(rs, pad, t);
    }
    OpenAll(rs);
  }

  lemma ZipOrdered(ss: seq<nat>, es: seq<nat>, key: nat)
    requires Alternating(ss, es, key) && |ss| == |es|
    ensures Separated(Zip(ss, es)) && Small(Zip(ss, es))
  {
    forall i, j | 0 <= i < j < |es| ensures es[i] < ss[j] { ZipSeparated(ss, es, key, i, j); }
  }

  lemma SweptSeparated(ev: seq<Event>, ss: seq<nat>, es: seq<nat>)
    requires Balanced(ev) && |ss| == |es| && ss == Starts(ev, |ev|) && es == Ends(ev, |ev|)
    ensures Separated(Zip(ss, es)) && Small(Zip(ss, es))
  {
    MarksOrdered(ev, |ev|);
    ZipOrdered(ss, es, if |ev| == 0 then 0 else ev[|ev| - 1].key);
  }

  lemma SweptBytes(rs: seq<Range>, ev: seq<Event>, out: seq<Range>)
    requires Small(rs) && Balanced(ev) && (forall t: nat | t <= MAX_U64 :: SumBelow(ev, t) == Open(rs, t))
    requires |Starts(ev, |ev|)| == |Ends(ev, |ev|)| && out == Zip(Starts(ev, |ev|), Ends(ev, |ev|)) && Small(out)
    ensures SameBytes(out, rs)
  {
    forall x: int ensures Covers(out, x) <==> Covers(rs, x) {
      if 0 <= x < ADDRESS_LIMIT {
        SweptRanges(ev, x);
        OpenCovers(rs, x);
      }
    }
  }

  // ---------------------------------------------------------------- how many ranges come out

  const PADDING := Event(MAX_U64, 0)

  lemma {:induction false} PaddingInTile(rs: seq<Range>, pad: nat)
    requires Small(rs)
    ensures multiset(Tile(rs, pad))[PADDING] == pad
  {
    if rs == [] {
      PaddingOnly(Tile(rs, pad), 0);
    } else {
      PaddingInTile(rs[1..], pad);
      NoPaddingAdded(StartEvent(rs[0].start), EndEvent(rs[0].end), Tile(rs[1..], pad));
    }
  }

  lemma NoPaddingAdded(first: Event, last: Event, rest: seq<Event>)
    requires first != PADDING && last != PADDING
    ensures multiset([first, last] + rest)[PADDING] == multiset(rest)[PADDING]
  {
  }

  lemma {:induction false} PaddingOnly(ev: seq<Event>, p: nat)
    requires p <= |ev| && forall i | 0 <= i < |ev| :: ev[i] == PADDING <==> i >= p
    ensures multiset(ev)[PADDING] == |ev| - p
  {
    if ev != [] {
      var last := |ev| - 1;
      assert ev == ev[..last] + [ev[last]];
      PaddingOnly(ev[..last], if p <= last then p else last);
    }
  }

  lemma {:induction false} FewMarks(ev: seq<Event>, p: nat, n: nat)
    requires Balanced(ev) && p <= |ev| && n <= |ev| && forall i | p <= i < |ev| :: ev[i].key == MAX_U64
    ensures |Starts(ev, n)| + |Ends(ev, n)| <= p
    ensures n <= p ==> |Starts(ev, n)| + |Ends(ev, n)| <= n
    decreases n
  {
    if n > 0 { FewMarks(ev, p, n - 1); }
  }

  lemma SweptCount(rs: seq<Range>, pad: nat, ev: seq<Event>)
    requires Small(rs) && Balanced(ev) && multiset(ev) == multiset(Tile(rs, pad))
    ensures |Starts(ev, |ev|)| + |Ends(ev, |ev|)| <= 2 * |rs|
  {
    var p := SplitPoint(ev, MAX_U64 - 1);
    forall i | 0 <= i < |ev| ensures ev[i] == PADDING <==> i >= p { assert Signed(ev[i]); }
    PaddingOnly(ev, p);
    PaddingInTile(rs, pad);
    TileSigned(rs, pad);
    assert |ev| == |multiset(ev)| == |multiset(Tile(rs, pad))| == |Tile(rs, pad)|;
    FewMarks(ev, p, |ev|);
  }

  // ---------------------------------------------------------------- no empty range appears

  lemma {:induction false} StartsAreKeys(ev: seq<Event>, n: nat, k: nat)
    requires Balanced(ev) && n <= |ev| && k < |Starts(ev, n)|
    ensures Event(2 * Starts(ev, n)[k], 1) in ev
  {
    MarkFacts(ev, n - 1);
    assert Signed(ev[n - 1]);
    if k < |Starts(ev, n - 1)| {
      StartsAreKeys(ev, n - 1, k);
    } else {
      assert ev[n - 1] == Event(2 * Starts(ev, n)[k], 1);
    }
  }

  lemma {:induction false} TileStart(rs: seq<Range>, pad: nat, a: nat)
    requires Small(rs) && Event(2 * a, 1) in Tile(rs, pad)
    ensures exists i :: 0 <= i < |rs| && rs[i].start == a
  {
    if rs[0].start != a {
      TileStart(rs[1..], pad, a);
      var i :| 0 <= i < |rs[1..]| && rs[1..][i].start == a;
      assert rs[i + 1].start == a;
    }
  }

  lemma SweptNonEmpty(rs: seq<Range>, pad: nat, ev: seq<Event>, out: seq<Range>, k: nat)
    requires Small(rs) && NonEmpty(rs) && Balanced(ev) && multiset(ev) == multiset(Tile(rs, pad))
    requires |Starts(ev, |ev|)| == |Ends(ev, |ev|)| && out == Zip(Starts(ev, |ev|), Ends(ev, |ev|))
    requires Separated(out) && SameBytes(out, rs) && k < |out|
    ensures out[k].start < out[k].end
  {
    var a := out[k].start;
    StartsAreKeys(ev, |ev|, k);
    assert Event(2 * a, 1) in multiset(ev);
    TileStart(rs, pad, a);
    var i :| 0 <= i < |rs| && rs[i].start == a;
    CoversAt(rs, i, a);
    var j :| 0 <= j < |out| && out[j].Contains(a);
    assert j == k;
  }

  lemma TileMerged(rs: seq<Range>, pad: nat, ev: seq<Event>, out: seq<Range>)
    requires Small(rs) && Balanced(ev) && multiset(ev) == multiset(Tile(rs, pad))
    requires forall t: nat | t <= MAX_U64 :: SumBelow(ev, t) == Open(rs, t)
    requires |Starts(ev, |ev|)| == |Ends(ev, |ev|)| && out == Zip(Starts(ev, |ev|), Ends(ev, |ev|))
    ensures Separated(out) && SameBytes(out, rs)
    ensures |out| <= |rs| && Small(out) && (NonEmpty(rs) ==> NonEmpty(out))
  {
    SweptSeparated(ev, Starts(ev, |ev|), Ends(ev, |ev|));
    SweptBytes(rs, ev, out);
    SweptCount(rs, pad, ev);
    if NonEmpty(rs) {
      forall k | 0 <= k < |out| ensures out[k].start < out[k].end { SweptNonEmpty(rs, pad, ev, out, k); }
    }
  }

  // ---------------------------------------------------------------- the limit is exact

  /** The marks of a tile pair up, and the ranges they bound cover the bytes of the tile. */
  ghost predicate SweepsExactly(rs: seq<Range>, pad: nat) {
    var ev := SortByKey(Tile(rs, pad));
    && |Starts(ev, |ev|)| == |Ends(ev, |ev|)|
    && SameBytes(Zip(Starts(ev, |ev|), Ends(ev, |ev|)), rs)
  }

  lemma {:induction false} TileKeys(rs: seq<Range>, pad: nat)
    requires forall i | 0 <= i < |rs| :: rs[i].start <= MAX_U64 && rs[i].end <= MAX_U64
    ensures forall i | 0 <= i < |Tile(rs, pad)| :: Tile(rs, pad)[i].key <= MAX_U64
  {
    if rs != [] { TileKeys(rs[1..], pad); }
  }

  /** Whatever the events, no end mark yields an address at or beyond the limit. */
  lemma {:induction false} EndsBelowLimit(ev: seq<Event>, n: nat)
    requires n <= |ev| && forall i | 0 <= i < |ev| :: ev[i].key <= MAX_U64
    ensures forall k | 0 <= k < |Ends(ev, n)| :: Ends(ev, n)[k] < ADDRESS_LIMIT
  {
    if n > 0 { EndsBelowLimit(ev, n - 1); }
  }

  /** For non-empty ranges of 64-bit addresses the sweep of a tile is exact if and only if all lie below the limit. */
  lemma SweepsExactlyIff(rs: seq<Range>, pad: nat)
    requires NonEmpty(rs) && forall i | 0 <= i < |rs| :: rs[i].end <= MAX_U64
    ensures SweepsExactly(rs, pad) <==> Small(rs)
  {
    var ev := SortByKey(Tile(rs, pad));
    if Small(rs) {
      TileBalanced(rs, pad, ev);
      AllClosed(ev);
      MarksPair(ev, |ev|);
      TileMerged(rs, pad, ev, Zip(Starts(ev, |ev|), Ends(ev, |ev|)));
    } else if SweepsExactly(rs, pad) {
      var i :| 0 <= i < |rs| && rs[i].end >= ADDRESS_LIMIT;
      CoversAt(rs, i, rs[i].end - 1);
      LastByteLost(rs, pad, ev, rs[i].end - 1);
    }
  }

  lemma LastByteLost(rs: seq<Range>, pad: nat, ev: seq<Event>, x: nat)
    requires ev == SortByKey(Tile(rs, pad)) && |Starts(ev, |ev|)| == |Ends(ev, |ev|)| && x >= ADDRESS_LIMIT - 1
    requires forall i | 0 <= i < |rs| :: rs[i].start <= MAX_U64 && rs[i].end <= MAX_U64
    ensures !Covers(Zip(Starts(ev, |ev|), Ends(ev, |ev|)), x)
  {
    TileKeys(rs, pad);
    forall i | 0 <= i < |ev| ensures ev[i].key <= MAX_U64 { assert ev[i] in multiset(Tile(rs, pad)); }
    EndsBelowLimit(ev, |ev|);
  }

  // ---------------------------------------------------------------- the tile merge

  /** What the tile merge computes. */
  function Swept(rs: seq<Range>, pad: nat): (out: seq<Range>)
    requires Small(rs)
    ensures Separated(out) && SameBytes(out, rs)
    ensures |out| <= |rs| && Small(out) && (NonEmpty(rs) ==> NonEmpty(out))
  {
    var ev := SortByKey(Tile(rs, pad));
    TileBalanced(rs, pad, ev);
    AllClosed(ev);
    MarksPair(ev, |ev|);
    TileMerged(rs, pad, ev, Zip(Starts(ev, |ev|), Ends(ev, |ev|)));
    Zip(Starts(ev, |ev|), Ends(ev, |ev|))
  }

  /** The marked addresses of a sorted tile, scattered and paired. */
  method SweepTile(ev: seq<Event>) returns (out: seq<Range>)
    requires Balanced(ev)
    ensures |Starts(ev, |ev|)| == |Ends(ev, |ev|)| && out == Zip(Starts(ev, |ev|), Ends(ev, |ev|))
  {
    var starts, ends := Marks(ev);
    var ss := seq(|ev|, i requires 0 <= i < |ev| => ev[i].key / 2);
    var es := seq(|ev|, i requires 0 <= i < |ev| => if ev[i].key > 0 then (ev[i].key - 1) / 2 else 0);
    var outStart := Scatter(starts, ss);
    var outEnd := Scatter(ends, es);
    PickedMarks(ev, starts, ends, ss, es, |ev|);
    AllClosed(ev);
    MarksPair(ev, |ev|);
    out := Zip(outStart, outEnd);
  }

  /**
   * Merging one tile: any list of ranges with small addresses comes out in order with a strict gap
   * between neighbours, covering exactly the same bytes, in no more ranges than went in.
   */
  method IntervalMergeImpl(rs: seq<Range>, pad: nat) returns (out: seq<Range>)
    requires Small(rs)
    ensures out == Swept(rs, pad)
    ensures Separated(out) && SameBytes(out, rs)
    ensures |out| <= |rs| && Small(out) && (NonEmpty(rs) ==> NonEmpty(out))
  {
    ghost var swept := Swept(rs, pad);
    var ev := SortByKey(Tile(rs, pad));
    TileBalanced(rs, pad, ev);
    out := SweepTile(ev);
    assert out == swept;
  }
}
