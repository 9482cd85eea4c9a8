/** Accesses that repeat a value (redshow/src/analysis/temporal_redundancy.cpp): counting and top views. */
module TemporalRedundancy {
  import opened Common
  import opened OpNames
  import opened TopViews

  datatype ThreadId = ThreadId(block: nat, thread: nat)

  datatype Event =
    | Access(pc: nat, thread: ThreadId, addr: nat, value: nat, kind: AccessKind)
    | Exit(thread: ThreadId)

  // ---------------------------------------------------------------- what is to be counted

  /** Event `i` is an access of thread `t` to address `a`. */
  predicate Touches(log: seq<Event>, i: int, t: ThreadId, a: nat) {
    0 <= i < |log| && log[i].Access? && log[i].thread == t && log[i].addr == a
  }

  predicate Leaves(log: seq<Event>, i: int, t: ThreadId) { 0 <= i < |log| && log[i] == Exit(t) }

  /** The latest access of `t` to `a` since `t` last left a block, or -1. */
  function Previous(log: seq<Event>, t: ThreadId, a: nat): (p: int)
    ensures -1 <= p < |log|
    ensures p >= 0 ==> Touches(log, p, t, a)
    ensures p >= 0 ==> forall j | p < j < |log| :: !Touches(log, j, t, a) && !Leaves(log, j, t)
    ensures p < 0 ==> forall i | Touches(log, i, t, a) :: exists j :: i < j && Leaves(log, j, t)
  {
    if log == [] then -1
    else
      var n := |log| - 1;
      if log[n] == Exit(t) then assert Leaves(log, n, t); -1
      else if Touches(log, n, t, a) then n
      else
        var p := Previous(log[..n], t, a);
        assert forall i | Touches(log, i, t, a) :: Touches(log[..n], i, t, a);
        assert forall j | Leaves(log[..n], j, t) :: Leaves(log, j, t);
        assert forall j | 0 <= j < n && Touches(log, j, t, a) :: Touches(log[..n], j, t, a);
        assert forall j | 0 <= j < n && Leaves(log, j, t) :: Leaves(log[..n], j, t);
        p
  }

  datatype Seen = Seen(pc: nat, value: nat)

  function Latest(log: seq<Event>, t: ThreadId, a: nat): Option<Seen> {
    var p := Previous(log, t, a);
    if p < 0 then None else Some(Seen(log[p].pc, log[p].value))
  }

  /** Where a repeated value came from, the value, and how it was accessed. */
  datatype Pair = Pair(from: nat, value: nat, kind: AccessKind)

  /** The pair an event adds to: an access whose value equals the latest one. */
  function Repeated(log: seq<Event>, e: Event): Option<Pair> {
    if e.Exit? then None
    else match Latest(log, e.thread, e.addr)
      case None => None
      case Some(seen) => if seen.value == e.value then Some(Pair(seen.pc, e.value, e.kind)) else None
  }

  function One(b: bool): nat { if b then 1 else 0 }

  /** How often an access at `pc` repeated the value of `pair`; how often at all; and how many accesses. */
  function Repeats(log: seq<Event>, pc: nat, pair: Pair): nat {
    if log == [] then 0
    else
      var front, e := log[..|log| - 1], log[|log| - 1];
      Repeats(front, pc, pair) + One(Repeated(front, e) == Some(pair) && e.pc == pc)
  }

  function RepeatsAt(log: seq<Event>, pc: nat): nat {
    if log == [] then 0
    else
      var front, e := log[..|log| - 1], log[|log| - 1];
      RepeatsAt(front, pc) + One(Repeated(front, e).Some? && e.pc == pc)
  }

  function AllRepeats(log: seq<Event>): nat {
    if log == [] then 0
    else AllRepeats(log[..|log| - 1]) + One(Repeated(log[..|log| - 1], log[|log| - 1]).Some?)
  }

  function Accesses(log: seq<Event>, pc: nat): nat {
    if log == [] then 0
    else Accesses(log[..|log| - 1], pc) + One(log[|log| - 1].Access? && log[|log| - 1].pc == pc)
  }

  /** Redundant accesses are accesses. */
  lemma {:induction false} RepeatsBounded(log: seq<Event>, pc: nat)
    ensures RepeatsAt(log, pc) <= Accesses(log, pc)
  {
    if log != [] { RepeatsBounded(log[..|log| - 1], pc); }
  }

  // ---------------------------------------------------------------- the counts, by position

  /** The access at `i` comes right after the one at `j`: nothing between touches its address or ends its thread. */
  predicate Follows(log: seq<Event>, j: int, i: int) {
    && 0 <= j < i < |log| && log[i].Access? && Touches(log, j, log[i].thread, log[i].addr)
    && forall k | j < k < i :: !Touches(log, k, log[i].thread, log[i].addr) && !Leaves(log, k, log[i].thread)
  }

  /** The access at `i` sees again the value it came right after. */
  ghost predicate RepeatAt(log: seq<Event>, i: int) {
    exists j :: Follows(log, j, i) && log[j].value == log[i].value
  }

  /** And this is the pair of the two. */
  ghost predicate PairAt(log: seq<Event>, i: int, pair: Pair) {
    exists j :: Follows(log, j, i) && log[j].value == log[i].value && pair == Pair(log[j].pc, log[i].value, log[i].kind)
  }

  lemma FollowsNext(log: seq<Event>, e: Event, j: int, i: int)
    requires i < |log|
    ensures Follows(log + [e], j, i) <==> Follows(log, j, i)
  {
    if 0 <= i {
      var more := log + [e];
      assert more[i] == log[i];
      if log[i].Access? {
        assert forall k | 0 <= k < i :: more[k] == log[k];
        assert forall k | k < i ::
            Touches(more, k, log[i].thread, log[i].addr) <==> Touches(log, k, log[i].thread, log[i].addr);
        assert forall k | k < i :: Leaves(more, k, log[i].thread) <==> Leaves(log, k, log[i].thread);
      }
    }
  }

  /** Position `j` is the latest access of `t` to `a`, and `t` has not left since. */
  predicate LastTouch(log: seq<Event>, t: ThreadId, a: nat, j: int) {
    Touches(log, j, t, a) && forall k | j < k < |log| :: !Touches(log, k, t, a) && !Leaves(log, k, t)
  }

  lemma LastTouchIs(log: seq<Event>, t: ThreadId, a: nat, j: int)
    ensures LastTouch(log, t, a, j) <==> 0 <= j && j == Previous(log, t, a)
  {
  }

  /** The one access that a new event can follow is the latest one. */
  lemma FollowsLast(log: seq<Event>, e: Event, j: int)
    requires e.Access?
    ensures Follows(log + [e], j, |log|) <==> 0 <= j && j == Previous(log, e.thread, e.addr)
  {
    var more := log + [e];
    assert more[|log|] == e && forall k | 0 <= k < |log| :: more[k] == log[k];
    assert forall k | k < |log| :: Touches(more, k, e.thread, e.addr) <==> Touches(log, k, e.thread, e.addr);
    assert forall k | k < |log| :: Leaves(more, k, e.thread) <==> Leaves(log, k, e.thread);
    LastTouchIs(log, e.thread, e.addr, j);
  }

  lemma PairNext(log: seq<Event>, e: Event, i: int, pair: Pair)
    requires i < |log|
    ensures PairAt(log + [e], i, pair) <==> PairAt(log, i, pair)
    ensures RepeatAt(log + [e], i) <==> RepeatAt(log, i)
  {
    forall j ensures Follows(log + [e], j, i) <==> Follows(log, j, i) { FollowsNext(log, e, j, i); }
  }

  lemma PairLast(log: seq<Event>, e: Event, pair: Pair)
    ensures Repeated(log, e) == Some(pair) <==> PairAt(log + [e], |log|, pair)
    ensures Repeated(log, e).Some? <==> RepeatAt(log + [e], |log|)
  {
    var more, n := log + [e], |log|;
    assert more[n] == e;
    if e.Access? {
      var p := Previous(log, e.thread, e.addr);
      forall j ensures Follows(more, j, n) <==> 0 <= j && j == p { FollowsLast(log, e, j); }
      if p >= 0 { assert Follows(more, p, n) && more[p] == log[p]; }
    }
  }

  /** A set of positions in a longer log. */
  lemma OneMore(was: set<int>, now: set<int>, n: int, more: bool)
    requires n !in was && now == if more then was + {n} else was
    ensures |now| == |was| + One(more)
  {
  }

  ghost function PairsAt(log: seq<Event>, pc: nat, pair: Pair): set<int> {
    set i | 0 <= i < |log| && PairAt(log, i, pair) && log[i].pc == pc
  }

  ghost function RepeatPositions(log: seq<Event>): set<int> { set i | 0 <= i < |log| && RepeatAt(log, i) }

  ghost function RepeatsAtPc(log: seq<Event>, pc: nat): set<int> {
    set i | 0 <= i < |log| && RepeatAt(log, i) && log[i].pc == pc
  }

  ghost function AccessesAtPc(log: seq<Event>, pc: nat): set<int> {
    set i | 0 <= i < |log| && log[i].Access? && log[i].pc == pc
  }

  lemma PairsAtNext(log: seq<Event>, e: Event, pc: nat, pair: Pair)
    ensures |PairsAt(log + [e], pc, pair)|
         == |PairsAt(log, pc, pair)| + One(Repeated(log, e) == Some(pair) && e.pc == pc)
  {
    var more, n := log + [e], |log|;
    PairLast(log, e, pair);
    forall i | 0 <= i < n ensures PairAt(more, i, pair) <==> PairAt(log, i, pair) { PairNext(log, e, i, pair); }
    OneMore(PairsAt(log, pc, pair), PairsAt(more, pc, pair), n, Repeated(log, e) == Some(pair) && e.pc == pc);
  }

  lemma RepeatAtNext(log: seq<Event>, e: Event, i: int)
    requires 0 <= i <= |log|
    ensures RepeatAt(log + [e], i) <==> if i == |log| then Repeated(log, e).Some? else RepeatAt(log, i)
  {
    var any := Pair(0, 0, UNDETERMINED);
    if i == |log| { PairLast(log, e, any); } else { PairNext(log, e, i, any); }
  }

  lemma RepeatsAtNext(log: seq<Event>, e: Event, pc: nat)
    ensures |RepeatsAtPc(log + [e], pc)| == |RepeatsAtPc(log, pc)| + One(Repeated(log, e).Some? && e.pc == pc)
  {
    var more, n := log + [e], |log|;
    forall i | 0 <= i <= n ensures RepeatAt(more, i) <==> if i == n then Repeated(log, e).Some? else RepeatAt(log, i) {
      RepeatAtNext(log, e, i);
    }
    OneMore(RepeatsAtPc(log, pc), RepeatsAtPc(more, pc), n, Repeated(log, e).Some? && e.pc == pc);
  }

  lemma RepeatPositionsNext(log: seq<Event>, e: Event)
    ensures |RepeatPositions(log + [e])| == |RepeatPositions(log)| + One(Repeated(log, e).Some?)
  {
    var more, n := log + [e], |log|;
    forall i | 0 <= i <= n ensures RepeatAt(more, i) <==> if i == n then Repeated(log, e).Some? else RepeatAt(log, i) {
      RepeatAtNext(log, e, i);
    }
    OneMore(RepeatPositions(log), RepeatPositions(more), n, Repeated(log, e).Some?);
  }

  /** Each repeat of a pair is an access at `pc` that follows an access at the pair's pc with the same value. */
  lemma {:induction false} RepeatsCount(log: seq<Event>, pc: nat, pair: Pair)
    ensures Repeats(log, pc, pair) == |PairsAt(log, pc, pair)|
  {
    if log != [] {
      var n := |log| - 1;
      RepeatsCount(log[..n], pc, pair);
      PairsAtNext(log[..n], log[n], pc, pair);
      assert log == log[..n] + [log[n]];
    }
  }

  lemma {:induction false} RepeatsAtCount(log: seq<Event>, pc: nat)
    ensures RepeatsAt(log, pc) == |RepeatsAtPc(log, pc)|
  {
    if log != [] {
      var n := |log| - 1;
      RepeatsAtCount(log[..n], pc);
      RepeatsAtNext(log[..n], log[n], pc);
      assert log == log[..n] + [log[n]];
    }
  }

  lemma {:induction false} AllRepeatsCount(log: seq<Event>)
    ensures AllRepeats(log) == |RepeatPositions(log)|
  {
    if log != [] {
      var n := |log| - 1;
      AllRepeatsCount(log[..n]);
      RepeatPositionsNext(log[..n], log[n]);
      assert log == log[..n] + [log[n]];
    }
  }

  lemma {:induction false} AccessesCount(log: seq<Event>, pc: nat)
    ensures Accesses(log, pc) == |AccessesAtPc(log, pc)|
  {
    if log != [] {
      var n := |log| - 1;
      AccessesCount(log[..n], pc);
      OneMore(AccessesAtPc(log[..n], pc), AccessesAtPc(log, pc), n, log[n].Access? && log[n].pc == pc);
    }
  }

  // ---------------------------------------------------------------- sums over maps

  ghost function Sum<K(!new)>(m: map<K, nat>): nat
    decreases m.Keys
  {
    if m == map[] then 0 else var k :| k in m; m[k] + Sum(m - {k})
  }

  lemma {:induction false} SumSplit<K(!new)>(m: map<K, nat>, k: K)
    requires k in m
    ensures Sum(m) == m[k] + Sum(m - {k})
    decreases m.Keys
  {
    var j :| j in m && Sum(m) == m[j] + Sum(m - {j});
    if j != k {
      SumSplit(m - {j}, k);
      SumSplit(m - {k}, j);
      assert m - {j} - {k} == m - {k} - {j};
    }
  }

  function Get<K>(m: map<K, nat>, k: K): nat { if k in m then m[k] else 0 }

  function Bump<K>(m: map<K, nat>, k: K): map<K, nat> { m[k := Get(m, k) + 1] }

  lemma SumBump<K(!new)>(m: map<K, nat>, k: K)
    ensures Sum(Bump(m, k)) == Sum(m) + 1
  {
    SumSplit(Bump(m, k), k);
    if k in m {
      SumSplit(m, k);
      assert Bump(m, k) - {k} == m - {k};
    } else {
      assert Bump(m, k) - {k} == m;
    }
  }

  /** The repeats per pc, of the pcs that have any. */
  ghost function RedMap(log: seq<Event>): map<nat, nat> {
    if log == [] then map[]
    else
      var front, e := log[..|log| - 1], log[|log| - 1];
      if Repeated(front, e).Some? then Bump(RedMap(front), e.pc) else RedMap(front)
  }

  lemma {:induction false} RedMapIs(log: seq<Event>)
    ensures Sum(RedMap(log)) == AllRepeats(log)
    ensures forall pc :: Get(RedMap(log), pc) == RepeatsAt(log, pc) && (pc in RedMap(log) <==> RepeatsAt(log, pc) > 0)
  {
    if log != [] {
      var front, e := log[..|log| - 1], log[|log| - 1];
      RedMapIs(front);
      if Repeated(front, e).Some? { SumBump(RedMap(front), e.pc); }
    }
  }

  // ---------------------------------------------------------------- the trace

  type SeenMap = map<ThreadId, map<nat, Seen>>
  type PairMap = map<nat, map<Pair, nat>>

  function Lookup(seen: SeenMap, t: ThreadId, a: nat): Option<Seen> {
    if t in seen && a in seen[t] then Some(seen[t][a]) else None
  }

  ghost predicate SeenOk(seen: SeenMap, log: seq<Event>) {
    forall t, a {:trigger Lookup(seen, t, a)} {:trigger Latest(log, t, a)} :: Lookup(seen, t, a) == Latest(log, t, a)
  }

  function CountOf(pairs: PairMap, pc: nat, pair: Pair): nat {
    if pc in pairs then Get(pairs[pc], pair) else 0
  }

  ghost function RedCount(pairs: PairMap, pc: nat): nat { if pc in pairs then Sum(pairs[pc]) else 0 }

  ghost predicate PairsOk(pairs: PairMap, log: seq<Event>) {
    && (forall pc, pair {:trigger CountOf(pairs, pc, pair)} :: CountOf(pairs, pc, pair) == Repeats(log, pc, pair))
    && (forall pc {:trigger RedCount(pairs, pc)} :: RedCount(pairs, pc) == RepeatsAt(log, pc))
    && forall pc {:trigger pc in pairs} :: pc in pairs <==> RepeatsAt(log, pc) > 0
  }

  function Counted(pairs: PairMap, pc: nat, pair: Pair): PairMap {
    pairs[pc := Bump(if pc in pairs then pairs[pc] else map[], pair)]
  }

  lemma LatestNext(log: seq<Event>, e: Event, t: ThreadId, a: nat)
    ensures Latest(log + [e], t, a) ==
            if e == Exit(t) then None
            else if e.Access? && e.thread == t && e.addr == a then Some(Seen(e.pc, e.value))
            else Latest(log, t, a)
  {
    assert (log + [e])[..|log|] == log;
  }

  lemma PairsNext(pairs: PairMap, log: seq<Event>, e: Event)
    requires PairsOk(pairs, log)
    ensures PairsOk(
              match Repeated(log, e) case None => pairs case Some(pair) => Counted(pairs, e.pc, pair),
              log + [e])
  {
    var more := log + [e];
    assert more[..|log|] == log && more[|log|] == e;
    match Repeated(log, e)
    case None =>
    case Some(pair) =>
      var was: map<Pair, nat> := if e.pc in pairs then pairs[e.pc] else map[];
      SumBump(was, pair);
      assert RedCount(pairs, e.pc) == Sum(was);
      var next := Counted(pairs, e.pc, pair);
      forall pc, p ensures CountOf(next, pc, p) == Repeats(more, pc, p) {
        assert CountOf(pairs, pc, p) == Repeats(log, pc, p);
      }
      forall pc ensures RedCount(next, pc) == RepeatsAt(more, pc) {
        assert RedCount(pairs, pc) == RepeatsAt(log, pc);
      }
  }

  /** The pair counts after an access, from what the trace has seen. */
  function PairsAfter(seen: SeenMap, pairs: PairMap, e: Event): PairMap
    requires e.Access?
  {
    match Lookup(seen, e.thread, e.addr)
    case None => pairs
    case Some(prev) => if prev.value == e.value then Counted(pairs, e.pc, Pair(prev.pc, prev.value, e.kind)) else pairs
  }

  lemma PairsAccess(seen: SeenMap, pairs: PairMap, log: seq<Event>, e: Event)
    requires SeenOk(seen, log) && PairsOk(pairs, log) && e.Access?
    ensures PairsOk(PairsAfter(seen, pairs, e), log + [e])
  {
    assert Lookup(seen, e.thread, e.addr) == Latest(log, e.thread, e.addr);
    PairsNext(pairs, log, e);
  }

  ghost predicate AccessesOk(accesses: map<nat, nat>, log: seq<Event>) {
    forall pc :: Get(accesses, pc) == Accesses(log, pc)
  }

  lemma AccessesNext(accesses: map<nat, nat>, log: seq<Event>, e: Event)
    requires AccessesOk(accesses, log)
    ensures AccessesOk(if e.Access? then Bump(accesses, e.pc) else accesses, log + [e])
  {
    var next := if e.Access? then Bump(accesses, e.pc) else accesses;
    assert (log + [e])[..|log|] == log && (log + [e])[|log|] == e;
    forall pc ensures Get(next, pc) == Accesses(log + [e], pc) {
      assert Get(accesses, pc) == Accesses(log, pc);
    }
  }

  lemma RedMapOfPairs(pairs: PairMap, log: seq<Event>)
    requires PairsOk(pairs, log)
    ensures RedMap(log).Keys == pairs.Keys && forall pc | pc in RedMap(log) :: RedMap(log)[pc] == RepeatsAt(log, pc)
    ensures Sum(RedMap(log)) == AllRepeats(log)
  {
    RedMapIs(log);
  }

  /** The trace of one direction, reads or writes, of one kernel. */
  class Trace {
    var seen: SeenMap
    var pairs: PairMap
    var accesses: map<nat, nat>
    ghost var log: seq<Event>

    ghost predicate Valid()
      reads this
    {
      SeenOk(seen, log) && PairsOk(pairs, log) && AccessesOk(accesses, log)
    }

    constructor ()
      ensures Valid() && log == []
    {
      seen, pairs, accesses, log := map[], map[], map[], [];
    }

    method UnitAccess(pc: nat, t: ThreadId, addr: nat, value: nat, kind: AccessKind)
      requires Valid()
      modifies this
      ensures Valid() && log == old(log) + [Access(pc, t, addr, value, kind)]
    {
      ghost var e := Access(pc, t, addr, value, kind);
      ghost var was := seen;
      PairsAccess(seen, pairs, log, e);
      var record := Seen(pc, value);
      var mine: map<nat, Seen> := map[];
      if t !in seen {
        mine := mine[addr := record];
      } else if addr !in seen[t] {
        mine := seen[t][addr := record];
      } else {
        var prev := seen[t][addr];
        if prev.value == value {
          pairs := Counted(pairs, pc, Pair(prev.pc, prev.value, kind));
        }
        mine := seen[t][addr := record];
      }
      seen := seen[t := mine];
      SeenAccess(was, seen, log, e);
      AccessesNext(accesses, log, e);
      accesses := Bump(accesses, pc);
      log := log + [e];
    }

    /** What one pc contributes. */
    method Summarize(pc: nat) returns (v: View)
      requires Valid() && pc in pairs
      ensures v == ViewOf(log, pc) && v.redCount <= v.item.accessCount
    {
      var red, left := 0, pairs[pc];
      while left != map[]
        invariant red + Sum(left) == Sum(pairs[pc])
        decreases left.Keys
      {
        var pair :| pair in left;
        SumSplit(left, pair);
        red, left := red + left[pair], left - {pair};
      }
      assert RedCount(pairs, pc) == RepeatsAt(log, pc);
      RepeatsBounded(log, pc);
      v := Ranked(red, PcView(pc, Get(accesses, pc)));
    }

    /** One more pc enters the heap and the total. */
    method SelectOne(pc: nat, q: set<View>, total: nat, limit: nat, ghost done: set<nat>, ghost reds: map<nat, nat>)
      returns (q': set<View>, total': nat)
      requires Valid() && limit > 0 && pc in pairs && pc !in done && Best(AllViews(log, done), q, limit)
      requires pc in reds && reds[pc] == RepeatsAt(log, pc)
      ensures Best(AllViews(log, done + {pc}), q', limit)
      ensures total' + Sum(reds - {pc}) == total + Sum(reds)
    {
      var v := Summarize(pc);
      total' := total + v.redCount;
      AllViewsNext(log, done, pc);
      q' := Offer(q, v, limit, AllViews(log, done));
      SumSplit(reds, pc);
    }

    /** The heap of the `limit` largest views, and the number of all repeats. */
    method Select(limit: nat) returns (q: set<View>, total: nat)
      requires Valid() && limit > 0
      ensures Best(AllViews(log, pairs.Keys), q, limit) && total == AllRepeats(log)
    {
      var left := pairs.Keys;
      q := {};
      ghost var reds, done: set<nat> := RedMap(log), {};
      total := 0;
      RedMapOfPairs(pairs, log);
      while left != {}
        invariant reds.Keys == left && forall pc | pc in reds :: reds[pc] == RepeatsAt(log, pc)
        invariant left <= pairs.Keys && forall pc :: pc in done <==> pc in pairs.Keys && pc !in left
        invariant Best(AllViews(log, done), q, limit)
        invariant total + Sum(reds) == AllRepeats(log)
        decreases left
      {
        var pc :| pc in left;
        q, total := SelectOne(pc, q, total, limit, done, reds);
        left, reds, done := left - {pc}, reds - {pc}, done + {pc};
      }
      assert done == pairs.Keys;
    }

    /** The `limit` pairs that the accesses at `pc` repeated most often, least often first. */
    method TopPairs(pc: nat, limit: nat) returns (list: seq<Ranked<Pair>>)
      requires Valid() && pc in pairs && limit > 0
      ensures Tops(AllPairs(log, pc, pairs[pc].Keys), limit, list)
    {
      var q: set<Ranked<Pair>>, left := {}, pairs[pc].Keys;
      ghost var done: set<Pair> := {};
      while left != {}
        invariant left <= pairs[pc].Keys && forall p :: p in done <==> p in pairs[pc].Keys && p !in left
        invariant Best(AllPairs(log, pc, done), q, limit)
        decreases left
      {
        var pair :| pair in left;
        assert CountOf(pairs, pc, pair) == Repeats(log, pc, pair);
        AllPairsNext(log, pc, done, pair);
        q := Offer(q, Ranked(pairs[pc][pair], pair), limit, AllPairs(log, pc, done));
        left, done := left - {pair}, done + {pair};
      }
      assert done == pairs[pc].Keys;
      list := Drain(q);
    }

    /**
     * The `limit` views with the largest counts, smallest first, and the number of all repeats; and, unless
     * `memLimit` is zero, the top pairs of each of these views.
     */
    method RecordViews(limit: nat, memLimit: nat)
      returns (views: seq<View>, total: nat, stats: map<nat, seq<Ranked<Pair>>>)
      requires Valid() && limit > 0
      ensures Tops(AllViews(log, pairs.Keys), limit, views) && |views| == Min(limit, |pairs|)
      ensures total == AllRepeats(log) && forall pc :: pc in pairs <==> RepeatsAt(log, pc) > 0
      ensures stats.Keys == if memLimit == 0 then {} else set v | v in views :: v.item.pc
      ensures forall pc | pc in stats :: pc in pairs && Tops(AllPairs(log, pc, pairs[pc].Keys), memLimit, stats[pc])
    {
      var q;
      q, total := Select(limit);
      views := Drain(q);
      AllViewsCount(log, pairs.Keys);
      stats := map[];
      if memLimit != 0 {
        stats := PairLists(views, memLimit);
      }
    }

    /** The top pairs of each view. */
    method PairLists(views: seq<View>, limit: nat) returns (stats: map<nat, seq<Ranked<Pair>>>)
      requires Valid() && limit > 0 && (set v | v in views) <= AllViews(log, pairs.Keys)
      ensures stats.Keys == set v | v in views :: v.item.pc
      ensures forall pc | pc in stats :: pc in pairs && Tops(AllPairs(log, pc, pairs[pc].Keys), limit, stats[pc])
    {
      stats := map[];
      for i := 0 to |views|
        invariant stats.Keys == set v | v in views[..i] :: v.item.pc
        invariant forall pc | pc in stats :: pc in pairs && Tops(AllPairs(log, pc, pairs[pc].Keys), limit, stats[pc])
      {
        var pc := views[i].item.pc;
        assert views[i] in AllViews(log, pairs.Keys);
        var list := TopPairs(pc, limit);
        stats := stats[pc := list];
        assert views[..i + 1] == views[..i] + [views[i]];
      }
      assert views[..|views|] == views;
    }

    method BlockExit(t: ThreadId)
      requires Valid()
      modifies this
      ensures Valid() && log == old(log) + [Exit(t)]
    {
      PairsNext(pairs, log, Exit(t));
      SeenExit(seen, log, t);
      AccessesNext(accesses, log, Exit(t));
      seen := seen - {t};
      log := log + [Exit(t)];
    }
  }

  // ---------------------------------------------------------------- views

  datatype PcView = PcView(pc: nat, accessCount: nat)

  type View = Ranked<PcView>

  ghost function ViewOf(log: seq<Event>, pc: nat): View { Ranked(RepeatsAt(log, pc), PcView(pc, Accesses(log, pc))) }

  ghost function AllViews(log: seq<Event>, pcs: set<nat>): set<View> {
    set pc | pc in pcs :: ViewOf(log, pc)
  }

  lemma AllViewsNext(log: seq<Event>, pcs: set<nat>, pc: nat)
    requires pc !in pcs
    ensures ViewOf(log, pc) !in AllViews(log, pcs)
    ensures AllViews(log, pcs + {pc}) == AllViews(log, pcs) + {ViewOf(log, pc)}
  {
  }

  lemma {:induction false} AllViewsCount(log: seq<Event>, pcs: set<nat>)
    ensures |AllViews(log, pcs)| == |pcs|
    decreases pcs
  {
    if pcs != {} {
      var pc :| pc in pcs;
      AllViewsCount(log, pcs - {pc});
      AllViewsNext(log, pcs - {pc}, pc);
      assert pcs == pcs - {pc} + {pc};
    }
  }

  ghost function AllPairs(log: seq<Event>, pc: nat, ps: set<Pair>): set<Ranked<Pair>> {
    set p | p in ps :: Ranked(Repeats(log, pc, p), p)
  }

  lemma AllPairsNext(log: seq<Event>, pc: nat, ps: set<Pair>, p: Pair)
    requires p !in ps
    ensures Ranked(Repeats(log, pc, p), p) !in AllPairs(log, pc, ps)
    ensures AllPairs(log, pc, ps + {p}) == AllPairs(log, pc, ps) + {Ranked(Repeats(log, pc, p), p)}
  {
  }

  lemma SeenAccess(seen: SeenMap, seen': SeenMap, log: seq<Event>, e: Event)
    requires SeenOk(seen, log) && e.Access?
    requires var mine: map<nat, Seen> := if e.thread in seen then seen[e.thread] else map[];
             seen' == seen[e.thread := mine[e.addr := Seen(e.pc, e.value)]]
    ensures SeenOk(seen', log + [e])
  {
    forall t, a ensures Lookup(seen', t, a) == Latest(log + [e], t, a) {
      LatestNext(log, e, t, a);
      assert Lookup(seen, t, a) == Latest(log, t, a);
    }
  }

  lemma SeenExit(seen: SeenMap, log: seq<Event>, t: ThreadId)
    requires SeenOk(seen, log)
    ensures SeenOk(seen - {t}, log + [Exit(t)])
  {
    forall u, a ensures Lookup(seen - {t}, u, a) == Latest(log + [Exit(t)], u, a) {
      LatestNext(log, Exit(t), u, a);
      assert Lookup(seen, u, a) == Latest(log, u, a);
    }
  }
}
