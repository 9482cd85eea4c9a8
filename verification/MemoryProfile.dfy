/** Unused memory per object across kernels (redshow/src/analysis/memory_profile.cpp). */
module MemoryProfiles {
  import opened Ranges
  import opened RangeMerge
  import opened BlankChunks
  import opened ChunkSizes

  /** What is reported for one object after a kernel. */
  datatype Report = Report(largest: nat, fragmentation: real, accessRate: real)

  /** The bytes of an object that no access has touched. */
  ghost function Spare(alloc: Range, touched: seq<Range>): iset<int> { Bytes([alloc]) - Bytes(touched) }

  /** The chunks of an object are its allocation minus everything accessed, in normal form if no access was empty. */
  ghost predicate Unused(alloc: Range, touched: seq<Range>, chunks: seq<Range>) {
    && Disjoint(chunks) && Bytes(chunks) == Spare(alloc, touched) && Total(chunks) <= Size(alloc)
    && (NonEmpty([alloc]) && NonEmpty(touched) ==> Normal(chunks))
  }

  /** For accesses that are not empty the chunks are determined: the one normal form of the spare bytes. */
  lemma UnusedUnique(alloc: Range, touched: seq<Range>, s: seq<Range>, t: seq<Range>)
    requires NonEmpty([alloc]) && NonEmpty(touched) && Unused(alloc, touched, s)
    ensures Unused(alloc, touched, t) <==> s == t
  {
    if Unused(alloc, touched, t) {
      forall x: int ensures Covers(s, x) <==> Covers(t, x) { assert x in Bytes(s) <==> x in Bytes(t); }
      NormalFormUnique(s, t);
    }
  }

  lemma UnusedInitially(alloc: Range)
    requires alloc.start <= alloc.end
    ensures Unused(alloc, [], [alloc]) && Largest([alloc]) == Size(alloc)
  {
    assert Bytes([alloc]) == Bytes([alloc]) - Bytes([]);
  }

  lemma UnusedMore(alloc: Range, touched: seq<Range>, chunks: seq<Range>, units: seq<Range>, chunks': seq<Range>)
    requires Unused(alloc, touched, chunks)
    requires Disjoint(chunks') && Total(chunks') <= Total(chunks) && Bytes(chunks') == Bytes(chunks) - Bytes(units)
    requires Normal(chunks) && NonEmpty(units) ==> Normal(chunks')
    ensures Unused(alloc, touched + units, chunks')
  {
    if NonEmpty(touched + units) { NonEmptyParts(touched, units); }
    forall x: int ensures x in Bytes(touched + units) <==> x in Bytes(touched) || x in Bytes(units) {
      CoversConcat(touched, units, x);
    }
  }

  lemma NonEmptyParts(s: seq<Range>, t: seq<Range>)
    requires NonEmpty(s + t)
    ensures NonEmpty(s) && NonEmpty(t)
  {
    assert forall i | 0 <= i < |s| :: (s + t)[i] == s[i];
    assert forall i | 0 <= i < |t| :: (s + t)[|s| + i] == t[i];
  }

  // ---------------------------------------------------------------- one object, one kernel

  /** Subtracts every range of an access set, in whatever order and overlap. */
  method SubtractAll(s: seq<Range>, rs: seq<Range>) returns (t: seq<Range>)
    requires Disjoint(s) && Proper(rs)
    ensures Disjoint(t) && Largest(t) <= Largest(s) && Total(t) <= Total(s)
    ensures Bytes(t) == Bytes(s) - Bytes(rs)
    ensures Normal(s) && NonEmpty(rs) ==> Normal(t)
  {
    t := s;
    assert Bytes(s) == Bytes(s) - Bytes(rs[..0]);
    for i := 0 to |rs|
      invariant Disjoint(t) && Largest(t) <= Largest(s) && Total(t) <= Total(s)
      invariant Bytes(t) == Bytes(s) - Bytes(rs[..i])
      invariant Normal(s) && NonEmpty(rs) ==> Normal(t)
    {
      var u := SubtractRange(t, rs[i]);
      LargestRefines(u, t);
      BytesNext(rs, i);
      t := u;
    }
    assert rs[..|rs|] == rs;
  }

  lemma BytesNext(rs: seq<Range>, i: nat)
    requires i < |rs|
    ensures Bytes(rs[..i + 1]) == Bytes(rs[..i]) + Span(rs[i].start, rs[i].end)
  {
    forall x: int ensures x in Bytes(rs[..i + 1]) <==> x in Bytes(rs[..i]) + Span(rs[i].start, rs[i].end) {
      assert rs[..i + 1] == rs[..i] + [rs[i]];
      CoversConcat(rs[..i], [rs[i]], x);
      assert [rs[i]][0] == rs[i];
    }
  }

  /** The largest chunk and the total, as the reporting loop computes them. */
  method Measure(s: seq<Range>) returns (len: nat, sum: nat)
    ensures len == Largest(s) && sum == Total(s)
  {
    len, sum := 0, 0;
    for i := 0 to |s|
      invariant (if len < Largest(s[i..]) then Largest(s[i..]) else len) == Largest(s)
      invariant sum + Total(s[i..]) == Total(s)
    {
      assert s[i..][0] == s[i] && s[i..][1..] == s[i + 1..];
      sum := sum + Size(s[i]);
      if len < Size(s[i]) {
        len := Size(s[i]);
      }
    }
  }

  lemma {:induction false} LargestInTotal(s: seq<Range>)
    ensures Largest(s) <= Total(s)
    ensures Largest(s) == 0 ==> Total(s) == 0
  {
    if s != [] { LargestInTotal(s[1..]); }
  }

  function Part(n: nat, d: nat): (q: real)
    requires n <= d && 0 < d
    ensures 0.0 <= q <= 1.0 && (q == 1.0 <==> n == d) && (q == 0.0 <==> n == 0) && q * d as real == n as real
  {
    var q := n as real / d as real;
    assert q * d as real == n as real;
    q
  }

  /** What a report says of an object of `size` bytes with these unused chunks. */
  predicate Reports(s: seq<Range>, size: nat, r: Report) { Rates(Largest(s), Total(s), size, r) }

  predicate Rates(largest: nat, total: nat, size: nat, r: Report) {
    && r.largest == largest
    && 0.0 <= r.fragmentation < 1.0 && (r.fragmentation == 0.0 <==> largest == total)
    && (1.0 - r.fragmentation) * total as real == largest as real
    && 0.0 <= r.accessRate <= 1.0 && r.accessRate * size as real == (size - total) as real
  }

  /** What a report says of an object of `size` bytes, told by the bytes of it that are unused. */
  ghost predicate Describes(spare: iset<int>, size: nat, r: Report) {
    exists total :: Counts(spare, total) && LongestRun(spare, r.largest) && Rates(r.largest, total, size, r)
  }

  /** The report on an object's chunks describes its unused bytes. */
  lemma ReportDescribes(alloc: Range, touched: seq<Range>, chunks: seq<Range>, r: Report)
    requires Unused(alloc, touched, chunks) && NonEmpty([alloc]) && NonEmpty(touched)
    requires Reports(chunks, Size(alloc), r)
    ensures Describes(Spare(alloc, touched), Size(alloc), r)
  {
    LargestIsLongestRun(chunks);
    TotalCounts(chunks);
  }

  function Rated(largest: nat, total: nat, size: nat): (r: Report)
    requires 0 < size && largest <= total <= size && (largest == 0 ==> total == 0)
    ensures Rates(largest, total, size, r)
  {
    var part := if largest == 0 then 1.0 else Part(largest, total);
    assert 1.0 - (1.0 - part) == part;
    Report(largest, 1.0 - part, Part(size - total, size))
  }

  /** The report of one object; `previous` is its last largest chunk, which the source clamps to. */
  method Fragmentation(s: seq<Range>, previous: nat, size: nat) returns (r: Report)
    requires 0 < size && Total(s) <= size && Largest(s) <= previous
    ensures Reports(s, size, r)
  {
    var len, sum := Measure(s);
    LargestInTotal(s);
    if len > previous {
      len := previous;
    }
    r := Rated(len, sum, size);
  }

  ghost predicate Reportable(s: seq<Range>, previous: nat, size: nat) {
    0 < size && Total(s) <= size && Largest(s) <= previous
  }

  /** The reporting loop over the objects of one kernel; the clamp changes no value. */
  method ReportAll(chunks: map<nat, seq<Range>>, sizes: map<nat, nat>, previous: map<nat, nat>)
    returns (reports: map<nat, Report>)
    requires forall m | m in chunks :: m in sizes && m in previous && Reportable(chunks[m], previous[m], sizes[m])
    ensures reports.Keys == chunks.Keys && forall m | m in chunks :: Reports(chunks[m], sizes[m], reports[m])
  {
    reports := map[];
    var left := chunks.Keys;
    while left != {}
      invariant left <= chunks.Keys && reports.Keys == chunks.Keys - left
      invariant forall m | m in reports :: Reports(chunks[m], sizes[m], reports[m])
      decreases left
    {
      var m :| m in left;
      var r := Fragmentation(chunks[m], previous[m], sizes[m]);
      reports := reports[m := r];
      left := left - {m};
    }
  }

  // ---------------------------------------------------------------- across kernels

  predicate Shrunk(s: seq<Range>, t: seq<Range>) { Largest(t) <= Largest(s) && Total(t) <= Total(s) }

  type KernelChunks = map<nat, map<nat, seq<Range>>>

  /** Allocations, unused chunks by kernel and object, and the last kernel that touched each object. */
  datatype Profile = Profile(memories: map<nat, Range>, blank: KernelChunks, accessed: map<nat, nat>)
  {
    /** The unused chunks of an object: those of the last kernel that touched it, or its whole allocation. */
    function Chunks(m: nat): seq<Range> {
      if m in accessed && accessed[m] in blank && m in blank[accessed[m]] then blank[accessed[m]][m]
      else if m in memories then [memories[m]] else []
    }

    function LargestChunk(m: nat): nat { Largest(Chunks(m)) }

    ghost predicate Exact(touched: Accesses, m: nat) {
      m in memories && m in touched && Unused(memories[m], touched[m], Chunks(m))
    }

    /** The last kernel to touch an object holds chunks for it. */
    predicate Linked() {
      accessed.Keys <= memories.Keys && forall m | m in accessed :: accessed[m] in blank && m in blank[accessed[m]]
    }

    /** Every object's chunks are its allocation minus all unit accesses `touched` lists. */
    ghost predicate Sound(touched: Accesses) {
      && touched.Keys == memories.Keys && Linked()
      && (forall m {:trigger Exact(touched, m)} | m in memories :: Exact(touched, m))
    }

    /** One object of a kernel done: its new chunks are the ones looked up from now on. */
    function Done(kernel: nat, m: nat, t: seq<Range>): Profile
      requires kernel in blank
    {
      var chunks: map<nat, seq<Range>> := blank[kernel];
      Profile(memories, blank[kernel := chunks[m := t]], accessed[m := kernel])
    }
  }

  /** Unit accesses by object, in the order they came. */
  type Accesses = map<nat, seq<Range>>

  /** The accesses so far, once those in `units` are added for the objects not in `left`. */
  function Added(touched: Accesses, units: Accesses, left: set<nat>): (r: Accesses)
    ensures r.Keys == touched.Keys
  {
    map m | m in touched :: if m in units && m !in left then touched[m] + units[m] else touched[m]
  }

  lemma DoneChunks(p: Profile, kernel: nat, m: nat, t: seq<Range>, n: nat)
    requires kernel in p.blank && n in p.memories
    requires n in p.accessed ==> p.accessed[n] in p.blank && n in p.blank[p.accessed[n]]
    ensures p.Done(kernel, m, t).Chunks(n) == if n == m then t else p.Chunks(n)
  {
  }

  lemma DoneLinked(p: Profile, kernel: nat, m: nat, t: seq<Range>)
    requires p.Linked() && m in p.memories && kernel in p.blank
    ensures p.Done(kernel, m, t).Linked()
  {
  }

  lemma ObjectDone(p: Profile, touched: Accesses, kernel: nat, m: nat, units: seq<Range>, t: seq<Range>)
    requires p.Sound(touched) && m in p.memories && kernel in p.blank
    requires Unused(p.memories[m], touched[m] + units, t)
    ensures p.Done(kernel, m, t).Sound(touched[m := touched[m] + units])
  {
    var q, later := p.Done(kernel, m, t), touched[m := touched[m] + units];
    DoneLinked(p, kernel, m, t);
    forall n | n in p.memories ensures q.Exact(later, n) {
      assert p.Exact(touched, n);
      DoneChunks(p, kernel, m, t, n);
      ExactBy(q, later, n, if n == m then t else p.Chunks(n), if n == m then touched[m] + units else touched[n]);
    }
  }

  lemma ExactBy(q: Profile, later: Accesses, n: nat, chunks: seq<Range>, accesses: seq<Range>)
    requires n in q.memories && n in later && q.Chunks(n) == chunks && later[n] == accesses
    requires Unused(q.memories[n], accesses, chunks)
    ensures q.Exact(later, n)
  {
  }

  /** The recorded largest chunk of an object is that of its present chunks. */
  ghost predicate Tracks(p: Profile, largest: map<nat, nat>, m: nat) { m in largest && largest[m] == p.LargestChunk(m) }

  predicate Same(p: Profile, q: Profile, m: nat) { q.Chunks(m) == p.Chunks(m) }

  /** What a kernel does to one object: its chunks shrink if it is in the trace, and stay otherwise. */
  predicate Advanced(p: Profile, q: Profile, m: nat, objects: set<nat>) {
    if m in objects then Shrunk(p.Chunks(m), q.Chunks(m)) else Same(p, q, m)
  }

  lemma KernelAdded(p: Profile, touched: Accesses, kernel: nat)
    requires p.Sound(touched) && kernel !in p.blank
    ensures var q := p.(blank := p.blank[kernel := map[]]);
            q.Sound(touched) && forall m {:trigger Same(p, q, m)} | m in p.memories :: Same(p, q, m)
  {
    var q := p.(blank := p.blank[kernel := map[]]);
    forall m | m in p.memories ensures q.Exact(touched, m) && Same(p, q, m) {
      assert p.Exact(touched, m);
    }
  }

  /** The kernel holds the current chunks of exactly these objects. */
  predicate Filed(p: Profile, kernel: nat, ms: set<nat>) {
    && kernel in p.blank && p.blank[kernel].Keys == ms
    && forall m | m in ms :: m in p.accessed && p.accessed[m] == kernel
  }

  /** One object of a kernel: its access set is subtracted from its chunks, which move to this kernel. */
  method SubtractObject(
    p: Profile, kernel: nat, m: nat, s: seq<Range>, ghost touched: Accesses, ghost units: seq<Range>)
    returns (q: Profile)
    requires p.Sound(touched) && m in p.memories && Traced(s, units) && kernel in p.blank
    ensures q.Sound(touched[m := touched[m] + units]) && q.memories == p.memories
    ensures kernel in q.blank && q.blank[kernel].Keys == p.blank[kernel].Keys + {m}
    ensures q.accessed == p.accessed[m := kernel]
    ensures Shrunk(p.Chunks(m), q.Chunks(m))
    ensures forall n {:trigger Same(p, q, n)} | n in p.memories && n != m :: Same(p, q, n)
  {
    assert p.Exact(touched, m);
    var t := SubtractAll(p.Chunks(m), s);
    UnusedMore(p.memories[m], touched[m], p.Chunks(m), units, t);
    ObjectDone(p, touched, kernel, m, units, t);
    q := p.Done(kernel, m, t);
    forall n | n in p.memories ensures n != m ==> Same(p, q, n) {
      DoneChunks(p, kernel, m, t, n);
    }
    DoneChunks(p, kernel, m, t, m);
  }

  /** What a kernel does to the whole profile: objects in `left` are still to be done. */
  ghost predicate AllAdvanced(p: Profile, q: Profile, objects: set<nat>, left: set<nat>) {
    && q.memories == p.memories
    && (forall m {:trigger Advanced(p, q, m, objects)} | m in p.memories && m !in left :: Advanced(p, q, m, objects))
    && (forall m {:trigger Same(p, q, m)} | m in p.memories && m in left :: Same(p, q, m))
  }

  lemma AdvanceOne(p: Profile, was: Profile, q: Profile, objects: set<nat>, left: set<nat>, m: nat)
    requires AllAdvanced(p, was, objects, left) && m in left && m in p.memories && q.memories == p.memories
    requires m in objects && Shrunk(was.Chunks(m), q.Chunks(m))
    requires forall n {:trigger Same(was, q, n)} | n in p.memories && n != m :: Same(was, q, n)
    ensures AllAdvanced(p, q, objects, left - {m})
  {
    forall n | n in p.memories
      ensures n !in left - {m} ==> Advanced(p, q, n, objects)
      ensures n in left - {m} ==> Same(p, q, n)
    {
      assert n != m ==> Same(was, q, n);
      assert n in left ==> Same(p, was, n);
      assert n !in left ==> Advanced(p, was, n, objects);
    }
  }

  /** First half of a kernel callback: subtract its trace from the chunks of every object it touched. */
  method SubtractTrace(
    p: Profile, kernel: nat, trace: map<nat, seq<Range>>, ghost touched: Accesses, ghost units: Accesses)
    returns (q: Profile)
    requires p.Sound(touched) && TraceInv(p.memories, trace, units) && kernel !in p.blank
    ensures q.Sound(Added(touched, units, {})) && Filed(q, kernel, trace.Keys) && AllAdvanced(p, q, trace.Keys, {})
  {
    q := p.(blank := p.blank[kernel := map[]]);
    KernelAdded(p, touched, kernel);
    var left := trace.Keys;
    NoneAdvanced(p, q, trace.Keys);
    ghost var sofar := touched;
    assert Added(touched, units, left) == sofar;
    while left != {}
      invariant left <= trace.Keys && q.Sound(sofar) && sofar == Added(touched, units, left)
      invariant Filed(q, kernel, trace.Keys - left)
      invariant AllAdvanced(p, q, trace.Keys, left)
      decreases left
    {
      var m :| m in left;
      assert Traced(trace[m], units[m]);
      ghost var was := q;
      q := SubtractObject(q, kernel, m, trace[m], sofar, units[m]);
      AdvanceOne(p, was, q, trace.Keys, left, m);
      AddedNext(touched, units, left, m);
      sofar := Added(touched, units, left - {m});
      FiledNext(was, q, kernel, trace.Keys, left, m);
      left := left - {m};
    }
  }

  lemma FiledNext(p: Profile, q: Profile, kernel: nat, objects: set<nat>, left: set<nat>, m: nat)
    requires left <= objects && m in left && Filed(p, kernel, objects - left)
    requires kernel in q.blank && q.blank[kernel].Keys == p.blank[kernel].Keys + {m}
    requires q.accessed == p.accessed[m := kernel]
    ensures Filed(q, kernel, objects - (left - {m}))
  {
    assert objects - (left - {m}) == objects - left + {m};
  }

  lemma AddedNext(touched: Accesses, units: Accesses, left: set<nat>, m: nat)
    requires m in left && m in units && m in touched
    ensures var sofar := Added(touched, units, left);
            Added(touched, units, left - {m}) == sofar[m := sofar[m] + units[m]]
  {
  }

  lemma NoneAdvanced(p: Profile, q: Profile, objects: set<nat>)
    requires q.memories == p.memories && forall m {:trigger Same(p, q, m)} | m in p.memories :: Same(p, q, m)
    ensures AllAdvanced(p, q, objects, objects)
  {
    forall m | m in p.memories ensures m !in objects ==> Advanced(p, q, m, objects) { assert Same(p, q, m); }
  }

  ghost predicate AllTracked(p: Profile, largest: map<nat, nat>) {
    && largest.Keys == p.memories.Keys
    && forall m {:trigger Tracks(p, largest, m)} | m in p.memories :: Tracks(p, largest, m)
  }

  /** The chunks filed under a kernel are the current ones, no larger than what was last recorded. */
  lemma KernelReportable(
    p: Profile, q: Profile, kernel: nat, touched: Accesses, objects: set<nat>, largest: map<nat, nat>)
    requires q.Sound(touched) && Filed(q, kernel, objects) && objects <= p.memories.Keys
    requires AllAdvanced(p, q, objects, {}) && AllTracked(p, largest)
    requires forall m | m in objects :: 0 < Size(p.memories[m])
    ensures forall m | m in q.blank[kernel] ::
              m in largest && m in q.memories && Reportable(q.blank[kernel][m], largest[m], Size(q.memories[m]))
    ensures forall m | m in objects :: q.blank[kernel][m] == q.Chunks(m)
  {
    forall m | m in objects
      ensures q.blank[kernel][m] == q.Chunks(m)
      ensures m in largest && Reportable(q.Chunks(m), largest[m], Size(q.memories[m]))
    {
      assert Advanced(p, q, m, objects) && Tracks(p, largest, m) && q.Exact(touched, m);
    }
  }

  lemma KernelTracked(p: Profile, q: Profile, objects: set<nat>, largest: map<nat, nat>, reports: map<nat, Report>)
    requires AllAdvanced(p, q, objects, {}) && AllTracked(p, largest) && reports.Keys == objects <= p.memories.Keys
    requires forall m | m in objects :: reports[m].largest == q.LargestChunk(m)
    ensures AllTracked(q, largest + map m | m in reports :: reports[m].largest)
  {
    var later := largest + map m | m in reports :: reports[m].largest;
    forall m | m in q.memories ensures Tracks(q, later, m) {
      assert Advanced(p, q, m, objects) && Tracks(p, largest, m);
    }
  }

  /** The reports of a kernel, one per object it touched. */
  ghost predicate AllReported(q: Profile, objects: set<nat>, reports: map<nat, Report>) {
    && reports.Keys == objects
    && forall m | m in reports :: m in q.memories && Reports(q.Chunks(m), Size(q.memories[m]), reports[m])
  }

  /** An object whose accesses were not empty is reported by its longest unused run and its unused bytes. */
  ghost predicate Described(q: Profile, touched: Accesses, reports: map<nat, Report>, m: nat) {
    && m in q.memories && m in touched && m in reports
    && (NonEmpty(touched[m]) ==> Describes(Spare(q.memories[m], touched[m]), Size(q.memories[m]), reports[m]))
  }

  lemma KernelDescribed(q: Profile, touched: Accesses, objects: set<nat>, reports: map<nat, Report>)
    requires q.Sound(touched) && AllReported(q, objects, reports)
    requires forall m | m in objects && m in q.memories :: 0 < Size(q.memories[m])
    ensures forall m | m in objects :: Described(q, touched, reports, m)
  {
    forall m | m in objects ensures Described(q, touched, reports, m) {
      assert m in reports && q.Exact(touched, m);
      if NonEmpty(touched[m]) { ReportDescribes(q.memories[m], touched[m], q.Chunks(m), reports[m]); }
    }
  }

  /** Both halves of a kernel callback: subtract the trace, then report. */
  method FinishKernel(p: Profile, kernel: nat, trace: map<nat, seq<Range>>, largest: map<nat, nat>,
                      ghost touched: Accesses, ghost units: Accesses)
    returns (q: Profile, later: map<nat, nat>, reports: map<nat, Report>)
    requires p.Sound(touched) && TraceInv(p.memories, trace, units) && AllTracked(p, largest)
    requires kernel !in p.blank && forall m | m in trace :: Size(p.memories[m]) > 0
    ensures q.Sound(Added(touched, units, {})) && AllTracked(q, later) && AllAdvanced(p, q, trace.Keys, {})
    ensures AllReported(q, trace.Keys, reports)
    ensures forall m | m in trace :: Described(q, Added(touched, units, {}), reports, m)
  {
    q := SubtractTrace(p, kernel, trace, touched, units);
    KernelReportable(p, q, kernel, Added(touched, units, {}), trace.Keys, largest);
    reports := ReportAll(q.blank[kernel], map m | m in q.memories :: Size(q.memories[m]), largest);
    KernelTracked(p, q, trace.Keys, largest, reports);
    KernelDescribed(q, Added(touched, units, {}), trace.Keys, reports);
    later := largest + map m | m in reports :: reports[m].largest;
  }

  /** A new object enters untouched. */
  lemma MemoryAdded(p: Profile, touched: Accesses, largest: map<nat, nat>, m: nat, alloc: Range)
    requires p.Sound(touched) && AllTracked(p, largest) && m !in p.memories && alloc.start <= alloc.end
    ensures var q := p.(memories := p.memories[m := alloc]);
            q.Sound(touched[m := []]) && AllTracked(q, largest[m := Size(alloc)])
  {
    UnusedInitially(alloc);
    var q, later, sizes := p.(memories := p.memories[m := alloc]), touched[m := []], largest[m := Size(alloc)];
    forall n | n in q.memories ensures q.Exact(later, n) && Tracks(q, sizes, n) {
      if n != m { assert p.Exact(touched, n) && Tracks(p, largest, n) && q.Chunks(n) == p.Chunks(n); }
      ExactBy(q, later, n, if n == m then [alloc] else p.Chunks(n), if n == m then [] else touched[n]);
    }
  }

  class MemoryProfile {
    var profile: Profile
    var largest: map<nat, nat>                        // last reported largest chunk
    var trace: map<nat, seq<Range>>                   // ranges the running kernel touched
    ghost var units: Accesses                         // its unit accesses as they came
    ghost var touched: Accesses                       // the unit accesses of all finished kernels

    ghost predicate Valid()
      reads this
    {
      profile.Sound(touched) && TraceInv(profile.memories, trace, units) && AllTracked(profile, largest)
    }

    constructor ()
      ensures Valid() && profile.memories == map[]
    {
      profile, largest, trace, units, touched := Profile(map[], map[], map[]), map[], map[], map[], map[];
    }

    method MemoryOp(m: nat, alloc: Range)
      requires Valid() && m !in profile.memories && alloc.start <= alloc.end
      modifies this`profile, this`largest, this`touched
      ensures Valid()
      ensures profile.memories == old(profile).memories[m := alloc] && touched == old(touched)[m := []]
    {
      MemoryAdded(profile, touched, largest, m, alloc);
      profile := profile.(memories := profile.memories[m := alloc]);
      largest := largest[m := Size(alloc)];
      touched := touched[m := []];
    }

    method UnitAccess(m: nat, r: Range)
      requires Valid() && m in profile.memories && r.start <= r.end
      modifies this`trace, this`units
      ensures Valid()
      ensures units == old(units)[m := (if m in old(units) then old(units)[m] else []) + [r]]
    {
      var s := new RangeSet(if m in trace then trace[m] else []);
      ghost var us := if m in units then units[m] else [];
      TracedMore(s.ranges, us, r);
      if s.ranges == [] {
        s.ranges := [r];
      } else {
        s.MergeMemoryRange(r);
      }
      TraceMore(profile.memories, trace, units, m, s.ranges, us + [r]);
      trace := trace[m := s.ranges];
      units := units[m := us + [r]];
    }

    /**
     * A kernel finishes. Every object's chunks are again its allocation minus all unit accesses so
     * far; totals and largest chunks never grow, so the clamp on the reported chunk changes nothing.
     * Unless some access was empty, an object is reported by its longest run of unused bytes.
     */
    method KernelOp(kernel: nat) returns (reports: map<nat, Report>)
      requires Valid() && kernel !in profile.blank && forall m | m in trace :: Size(profile.memories[m]) > 0
      modifies this
      ensures Valid() && trace == map[] && touched == Added(old(touched), old(units), {})
      ensures AllAdvanced(old(profile), profile, old(trace).Keys, {})
      ensures AllReported(profile, old(trace).Keys, reports)
      ensures forall m | m in old(trace) :: Described(profile, touched, reports, m)
    {
      ghost var later := Added(touched, units, {});
      profile, largest, reports := FinishKernel(profile, kernel, trace, largest, touched, units);
      trace, units, touched := map[], map[], later;
      assert TraceInv(profile.memories, trace, units);
    }
  }

  ghost predicate TraceInv(memories: map<nat, Range>, trace: map<nat, seq<Range>>, units: map<nat, seq<Range>>) {
    trace.Keys == units.Keys <= memories.Keys && forall m | m in trace :: Traced(trace[m], units[m])
  }

  /** The access set of a kernel holds exactly the bytes of its unit accesses. */
  ghost predicate Traced(s: seq<Range>, units: seq<Range>) {
    StartSorted(s) && Proper(s) && Bytes(s) == Bytes(units) && (NonEmpty(units) ==> NonEmpty(s))
  }

  lemma TraceMore(memories: map<nat, Range>, trace: map<nat, seq<Range>>, units: map<nat, seq<Range>>, m: nat,
                  s: seq<Range>, us: seq<Range>)
    requires TraceInv(memories, trace, units) && m in memories && Traced(s, us)
    ensures TraceInv(memories, trace[m := s], units[m := us])
  {
  }

  lemma TracedMore(s: seq<Range>, units: seq<Range>, r: Range)
    requires Traced(s, units) && r.start <= r.end
    ensures Traced(Merged(s, r), units + [r])
  {
    MergedSorted(s, r);
    if NonEmpty(units + [r]) {
      NonEmptyParts(units, [r]);
      assert [r][0] == r;
      MergedNonEmpty(s, r);
    }
    forall x: int ensures x in Bytes(Merged(s, r)) <==> x in Bytes(units + [r]) {
      MergedCovers(s, r, x);
      CoversConcat(units, [r], x);
      assert [r][0] == r;
      assert x in Bytes(s) <==> x in Bytes(units);
    }
  }
}
