/** Versioned snapshots of the live allocations, their pruning, and region splitting (redshow/src/redshow.cpp). */
module Snapshots {
  import opened Common
  import opened Ranges

  /** An allocation: the operation that made it, its calling context and its bytes. */
  datatype Memory = Memory(op: nat, ctx: int, range: Range)

  /** Live allocations by start address; two ranges are the same key when they start alike. */
  type MemoryMap = map<nat, Memory>

  type Store = map<nat, MemoryMap>

  datatype Result = Success | DuplicateEntry | NotExistEntry | NotRegisterCallback

  // ---------------------------------------------------------------- prev

  /** The largest key at or below `t`, as the ordered maps' `prev` finds it. */
  function Prev(keys: set<nat>, t: nat): (p: Option<nat>)
    ensures p.Some? ==> p.value in keys && p.value <= t && forall k | k in keys && k <= t :: k <= p.value
    ensures p.None? ==> forall k | k in keys :: k > t
  {
    if t in keys then Some(t) else if t == 0 then None else Prev(keys, t - 1)
  }

  lemma PrevIs(keys: set<nat>, t: nat, k: nat)
    requires k in keys && k <= t && forall j | j in keys && j <= t :: j <= k
    ensures Prev(keys, t) == Some(k)
  {
  }

  lemma PrevSame(keys: set<nat>, keys': set<nat>, t: nat)
    requires forall k | k <= t :: k in keys <==> k in keys'
    ensures Prev(keys, t) == Prev(keys', t)
  {
    match Prev(keys, t)
    case Some(k) => PrevIs(keys', t, k);
    case None =>
      assert forall k | k in keys' && k <= t :: k in keys;
  }

  function Lookup(s: Store, t: nat): Option<MemoryMap> {
    match Prev(s.Keys, t)
    case None => None
    case Some(k) => Some(s[k])
  }

  // ---------------------------------------------------------------- replay

  /** A successful call. */
  datatype Call = Registered(op: nat, memory: Memory) | Unregistered(op: nat, start: nat)

  function Effect(m: MemoryMap, c: Call): MemoryMap {
    match c
    case Registered(_, memory) => m[memory.range.start := memory]
    case Unregistered(_, start) => m - {start}
  }

  /** The live allocations after all calls with an id of at most `t`. */
  function Replay(log: seq<Call>, t: nat): MemoryMap {
    if log == [] then map[]
    else
      var m := Replay(log[..|log| - 1], t);
      if log[|log| - 1].op <= t then Effect(m, log[|log| - 1]) else m
  }

  /** Call `i` registers, or unregisters, an allocation that starts at `k`, with an id of at most `t`. */
  predicate Registers(log: seq<Call>, t: nat, k: nat, i: int) {
    0 <= i < |log| && log[i].Registered? && log[i].op <= t && log[i].memory.range.start == k
  }

  predicate Unregisters(log: seq<Call>, t: nat, k: nat, i: int) {
    0 <= i < |log| && log[i].Unregistered? && log[i].op <= t && log[i].start == k
  }

  /** Registration `i` of `k` stands: nothing undoes it later. */
  predicate Stands(log: seq<Call>, t: nat, k: nat, i: int) {
    Registers(log, t, k, i) && forall j | i < j < |log| :: !Unregisters(log, t, k, j)
  }

  /** No call after `i` is about `k`. */
  predicate Latest(log: seq<Call>, t: nat, k: nat, i: int) {
    forall j | i < j < |log| :: !Registers(log, t, k, j) && !Unregisters(log, t, k, j)
  }

  lemma CallsShift(log: seq<Call>, front: seq<Call>, t: nat, k: nat)
    requires log != [] && front == log[..|log| - 1]
    ensures forall i {:trigger Registers(log, t, k, i)} {:trigger Registers(front, t, k, i)} | i < |front| ::
              Registers(log, t, k, i) == Registers(front, t, k, i)
    ensures forall i {:trigger Unregisters(log, t, k, i)} {:trigger Unregisters(front, t, k, i)} | i < |front| ::
              Unregisters(log, t, k, i) == Unregisters(front, t, k, i)
  {
  }

  /** An allocation is live exactly when some registration of it stands. */
  lemma {:induction false} ReplayLive(log: seq<Call>, t: nat, k: nat)
    ensures k in Replay(log, t) <==> exists i :: Stands(log, t, k, i)
  {
    if log != [] {
      var n := |log| - 1;
      var front := log[..n];
      ReplayLive(front, t, k);
      CallsShift(log, front, t, k);
      if i :| Stands(front, t, k, i) && !Unregisters(log, t, k, n) { assert Stands(log, t, k, i); }
      if i :| Stands(log, t, k, i) {
        if i < n { assert Stands(front, t, k, i); }
      }
      if Registers(log, t, k, n) { assert Stands(log, t, k, n); }
    }
  }

  /** And what is recorded of it is the memory of its last registration. */
  lemma {:induction false} ReplayValue(log: seq<Call>, t: nat, k: nat, i: int)
    requires Registers(log, t, k, i) && Latest(log, t, k, i)
    ensures k in Replay(log, t) && Replay(log, t)[k] == log[i].memory
  {
    var n := |log| - 1;
    if i < n {
      CallsShift(log, log[..n], t, k);
      assert !Registers(log, t, k, n) && !Unregisters(log, t, k, n);
      ReplayValue(log[..n], t, k, i);
    }
  }

  predicate Increasing(log: seq<Call>) { forall i, j | 0 <= i < j < |log| :: log[i].op < log[j].op }

  /** A call whose id is larger than that of every call before it. */
  predicate InOrder(log: seq<Call>, op: nat) { forall i | 0 <= i < |log| :: log[i].op < op }

  /** What a lookup ought to answer. */
  function Expected(log: seq<Call>, t: nat): Option<MemoryMap> {
    if exists i :: 0 <= i < |log| && log[i].op <= t then Some(Replay(log, t)) else None
  }

  /** From `floor` on, every lookup answers what the calls so far amount to. */
  ghost predicate Faithful(s: Store, log: seq<Call>, floor: nat) {
    && Increasing(log)
    && (forall k | k in s :: exists i :: 0 <= i < |log| && log[i].op == k)
    && (log != [] ==> log[|log| - 1].op in s)
    && forall t: nat | t >= floor :: Lookup(s, t) == Expected(log, t)
  }

  lemma {:induction false} ReplaySettled(log: seq<Call>, t: nat, u: nat)
    requires forall i | 0 <= i < |log| :: log[i].op <= t && log[i].op <= u
    ensures Replay(log, t) == Replay(log, u)
  {
    if log != [] { ReplaySettled(log[..|log| - 1], t, u); }
  }

  lemma ExpectedNext(log: seq<Call>, c: Call, t: nat)
    ensures t < c.op ==> Expected(log + [c], t) == Expected(log, t)
    ensures t >= c.op ==> Expected(log + [c], t) == Some(Effect(Replay(log, t), c))
  {
    var more := log + [c];
    assert more[..|log|] == log && more[|log|] == c;
    if i :| 0 <= i < |log| && log[i].op <= t { assert more[i].op <= t; }
    if i :| 0 <= i < |more| && more[i].op <= t { assert i < |log| ==> more[i] == log[i]; }
  }

  /** Adding a snapshot with a fresh, larger id changes no earlier answer. */
  lemma SnapshotAdded(s: Store, log: seq<Call>, floor: nat, c: Call, m: MemoryMap)
    requires Faithful(s, log, floor) && InOrder(log, c.op)
    requires m == Effect(Replay(log, c.op), c)
    ensures Faithful(s[c.op := m], log + [c], floor)
  {
    var s', more := s[c.op := m], log + [c];
    assert forall i | 0 <= i < |log| :: more[i] == log[i];
    assert more[|log|] == c;
    forall k | k in s' ensures exists i :: 0 <= i < |more| && more[i].op == k {
      if k != c.op {
        var i :| 0 <= i < |log| && log[i].op == k;
        assert more[i].op == k;
      }
    }
    assert forall k | k in s :: k < c.op;
    forall t: nat | t < c.op ensures Lookup(s', t) == Lookup(s, t) { PrevSame(s.Keys, s'.Keys, t); }
    forall t: nat | t >= floor ensures Lookup(s', t) == Expected(more, t) {
      ExpectedNext(log, c, t);
      if t >= c.op {
        PrevIs(s'.Keys, t, c.op);
        ReplaySettled(log, t, c.op);
      }
    }
  }

  /** The latest snapshot, which a call with a larger id starts from. */
  lemma LatestSnapshot(s: Store, log: seq<Call>, floor: nat, op: nat)
    requires Faithful(s, log, floor) && log != [] && InOrder(log, op)
    requires floor <= log[|log| - 1].op
    ensures Lookup(s, op) == Some(Replay(log, op))
  {
    assert log[|log| - 1].op <= op;
  }

  // ---------------------------------------------------------------- pruning

  /** Snapshots at or after `mini`, and the latest one before it. */
  function Pruned(s: Store, mini: nat): Store
    requires mini > 0
  {
    map k | k in s && (k >= mini || Prev(s.Keys, mini - 1) == Some(k)) :: s[k]
  }

  /**
   * Pruning, exactly: a lookup keeps its answer if it is at or after the kept snapshot before `mini`,
   * or had no answer; every other lookup loses its answer. Lookups from `mini` on are all kept.
   */
  lemma PruningExact(s: Store, mini: nat, t: nat)
    requires mini > 0
    ensures t >= mini ==> Lookup(Pruned(s, mini), t) == Lookup(s, t)
    ensures Lookup(Pruned(s, mini), t) == Lookup(s, t) <==>
              (Prev(s.Keys, mini - 1).Some? && t < Prev(s.Keys, mini - 1).value ==> Lookup(s, t).None?)
    ensures Lookup(Pruned(s, mini), t) != Lookup(s, t) ==> Lookup(Pruned(s, mini), t).None?
  {
    var p, kept := Pruned(s, mini), Prev(s.Keys, mini - 1);
    match Prev(s.Keys, t)
    case None =>
      assert forall k | k in p :: k > t;
    case Some(k) =>
      if k in p {
        PrevIs(p.Keys, t, k);
      } else {
        assert kept.Some? && k < kept.value;
        assert forall j | j in p :: j > t;
      }
  }

  /** The lookups that stay exact after pruning: those from the snapshot kept below `mini` on. */
  function FloorAfter(s: Store, floor: nat, mini: nat): nat
    requires mini > 0
  {
    match Prev(s.Keys, mini - 1)
    case None => floor
    case Some(k) => if k > floor then k else floor
  }

  lemma PrunedFaithful(s: Store, log: seq<Call>, floor: nat, mini: nat)
    requires Tracked(s, log, floor) && mini > 0
    ensures Tracked(Pruned(s, mini), log, FloorAfter(s, floor, mini))
  {
    forall t: nat | t >= FloorAfter(s, floor, mini) ensures Lookup(Pruned(s, mini), t) == Expected(log, t) {
      PruningExact(s, mini, t);
    }
    if log != [] {
      var last := log[|log| - 1].op;
      assert forall k | k in s :: k <= last;
      if last < mini { PrevIs(s.Keys, mini - 1, last); }
      assert last in Pruned(s, mini);
    }
  }

  /** Erasing the old ids but the largest leaves exactly the pruned store. */
  lemma ErasedIsPruned(s: Store, mini: nat, ids: set<nat>, largest: nat)
    requires mini > 0 && ids == (set k | k in s && k < mini)
    requires ids != {} ==> Prev(s.Keys, mini - 1) == Some(largest)
    ensures s - (ids - {largest}) == Pruned(s, mini)
    ensures forall t: nat | t >= mini :: Lookup(Pruned(s, mini), t) == Lookup(s, t)
  {
    forall t: nat | t >= mini ensures Lookup(Pruned(s, mini), t) == Lookup(s, t) { PruningExact(s, mini, t); }
  }

  // ---------------------------------------------------------------- the store

  /** The store answers for the calls so far, and every call with a larger id finds the latest snapshot. */
  ghost predicate Tracked(s: Store, log: seq<Call>, floor: nat) {
    && Faithful(s, log, floor)
    && (log == [] <==> s == map[])
    && (if log == [] then floor == 0 else floor <= log[|log| - 1].op)
  }

  /** Two maps agree on every allocation but the one at `start`. */
  ghost predicate SameBut(start: nat, m: MemoryMap, n: MemoryMap) {
    && (forall k | k in m && k != start :: k in n && n[k] == m[k])
    && (forall k | k in n && k != start :: k in m)
  }

  class SnapshotStore {
    var snapshots: Store
    ghost var log: seq<Call>
    ghost var floor: nat

    ghost predicate Valid()
      reads this
    {
      Tracked(snapshots, log, floor)
    }

    constructor ()
      ensures Valid() && log == [] && floor == 0
    {
      snapshots, log, floor := map[], [], 0;
    }

    /** The first call makes the first snapshot; a later one starts from the snapshot at or below its id. */
    method Register(op: nat, memory: Memory) returns (r: Result)
      modifies this
      ensures r == if old(snapshots) == map[] then Success
                   else match old(Lookup(snapshots, op))
                     case None => NotExistEntry
                     case Some(m) => if memory.range.start in m then DuplicateEntry else Success
      ensures floor == old(floor)
      ensures log == if r.Success? then old(log) + [Registered(op, memory)] else old(log)
      ensures !r.Success? ==> snapshots == old(snapshots)
      ensures forall t: nat | t < op :: Lookup(snapshots, t) == old(Lookup(snapshots, t))
      ensures r.Success? ==> Lookup(snapshots, op).Some? && var after := Lookup(snapshots, op).value;
                && memory.range.start in after && after[memory.range.start] == memory
                && SameBut(memory.range.start, after,
                           if old(snapshots) == map[] then map[] else old(Lookup(snapshots, op)).value)
      ensures old(Valid() && InOrder(log, op)) ==>
                && Valid()
                && r == if memory.range.start in Replay(old(log), op) then DuplicateEntry else Success
    {
      var m: MemoryMap := map[];
      if snapshots != map[] {
        if Tracked(snapshots, log, floor) && InOrder(log, op) { LatestSnapshot(snapshots, log, floor, op); }
        match Prev(snapshots.Keys, op)
        case None => return NotExistEntry;
        case Some(k) => m := snapshots[k];
      }
      if memory.range.start in m {
        return DuplicateEntry;
      }
      SnapshotTaken(snapshots, log, floor, Registered(op, memory), m);
      snapshots := snapshots[op := m[memory.range.start := memory]];
      PrevIs(snapshots.Keys, op, op);
      log := log + [Registered(op, memory)];
      r := Success;
    }

    method Unregister(op: nat, start: nat) returns (r: Result)
      modifies this
      ensures r == match old(Lookup(snapshots, op))
                   case None => NotExistEntry
                   case Some(m) => if start in m then Success else NotExistEntry
      ensures floor == old(floor)
      ensures log == if r.Success? then old(log) + [Unregistered(op, start)] else old(log)
      ensures !r.Success? ==> snapshots == old(snapshots)
      ensures forall t: nat | t < op :: Lookup(snapshots, t) == old(Lookup(snapshots, t))
      ensures r.Success? ==> Lookup(snapshots, op).Some? && var after := Lookup(snapshots, op).value;
                start !in after && SameBut(start, after, old(Lookup(snapshots, op)).value)
      ensures old(Valid() && InOrder(log, op)) ==>
                && Valid()
                && r == if start in Replay(old(log), op) then Success else NotExistEntry
    {
      if Tracked(snapshots, log, floor) && InOrder(log, op) && log != [] {
        LatestSnapshot(snapshots, log, floor, op);
      }
      match Prev(snapshots.Keys, op)
      case None => return NotExistEntry;
      case Some(k) =>
        var m := snapshots[k];
        if start !in m {
          return NotExistEntry;
        }
        SnapshotTaken(snapshots, log, floor, Unregistered(op, start), m);
        snapshots := snapshots[op := m - {start}];
        PrevIs(snapshots.Keys, op, op);
        log := log + [Unregistered(op, start)];
        r := Success;
    }

    /** Drops the snapshots no later lookup needs; keeps every answer at or after `mini`. */
    method AnalysisEnd(mini: nat, dataFlow: bool) returns (r: Result)
      modifies this
      ensures r == if mini != 0 && !dataFlow then Success else NotRegisterCallback
      ensures log == old(log)
      ensures snapshots == if r.Success? then Pruned(old(snapshots), mini) else old(snapshots)
      ensures floor == if r.Success? then FloorAfter(old(snapshots), old(floor), mini) else old(floor)
      ensures forall t: nat | t >= mini :: Lookup(snapshots, t) == old(Lookup(snapshots, t))
      ensures old(Valid()) ==> Valid()
    {
      if mini == 0 || dataFlow {
        return NotRegisterCallback;
      }
      var ids, largest := OldIds(mini);
      ErasedIsPruned(snapshots, mini, ids, largest);
      if Tracked(snapshots, log, floor) { PrunedFaithful(snapshots, log, floor, mini); }
      floor := FloorAfter(snapshots, floor, mini);
      snapshots := snapshots - (ids - {largest});
      r := Success;
    }

    /** The ids below `mini` and the largest of them, zero if there is none. */
    method OldIds(mini: nat) returns (ids: set<nat>, largest: nat)
      requires mini > 0
      ensures ids == set k | k in snapshots && k < mini
      ensures ids != {} ==> Prev(snapshots.Keys, mini - 1) == Some(largest)
    {
      ids, largest := {}, 0;
      var left := snapshots.Keys;
      while left != {}
        invariant left <= snapshots.Keys && ids == set k | k in snapshots && k !in left && k < mini
        invariant (if ids == {} then largest == 0 else largest in ids) && forall k | k in ids :: k <= largest
        decreases left
      {
        var k :| k in left;
        if k < mini {
          ids := ids + {k};
          largest := if k > largest then k else largest;
        }
        left := left - {k};
      }
      assert forall k | k in snapshots && k <= mini - 1 :: k in ids;
      if ids != {} { PrevIs(snapshots.Keys, mini - 1, largest); }
    }
  }

  /** One successful call: earlier answers stand, and an in-order call keeps the store faithful. */
  lemma SnapshotTaken(s: Store, log: seq<Call>, floor: nat, c: Call, m: MemoryMap)
    ensures forall t: nat | t < c.op :: Lookup(s[c.op := Effect(m, c)], t) == Lookup(s, t)
    ensures Tracked(s, log, floor) && InOrder(log, c.op) && m == Replay(log, c.op) ==>
              Tracked(s[c.op := Effect(m, c)], log + [c], floor)
  {
    var s' := s[c.op := Effect(m, c)];
    forall t: nat | t < c.op ensures Lookup(s', t) == Lookup(s, t) { PrevSame(s.Keys, s'.Keys, t); }
    if Tracked(s, log, floor) && InOrder(log, c.op) && m == Replay(log, c.op) {
      SnapshotAdded(s, log, floor, c, Effect(m, c));
    }
  }
}
