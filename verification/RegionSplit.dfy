/** Splitting a recorded access region over the live allocations (redshow/src/redshow.cpp). */
module RegionSplit {
  import opened Common
  import opened Ranges
  import opened Snapshots

  /** A part of a region, attributed to the allocation `op` made in context `ctx`. */
  datatype Piece = Piece(op: nat, ctx: int, start: nat, size: nat)

  /** Allocations are filed under their start address and do not overlap. */
  ghost predicate WellFormed(m: MemoryMap) {
    && (forall k | k in m :: m[k].range.start == k)
    && forall j, k | j in m && k in m && j < k :: m[j].range.end <= k
  }

  /** Allocation `k` is known and holds address `a`. */
  predicate Owns(m: MemoryMap, k: nat, a: nat) {
    k in m && m[k].op != 0 && k <= a < m[k].range.end
  }

  ghost predicate Live(m: MemoryMap, a: nat) { exists k: nat :: Owns(m, k, a) }

  ghost predicate AllLive(m: MemoryMap, lo: nat, hi: nat) { forall a | lo <= a < hi :: Live(m, a) }

  /** The piece is the rest of one allocation, up to `limit`, and carries its operation and context. */
  ghost predicate Attributed(m: MemoryMap, limit: nat, p: Piece) {
    exists k: nat ::
      && Owns(m, k, p.start) && p.size > 0 && p.start + p.size == Min(limit, m[k].range.end)
      && m[k].op == p.op && m[k].ctx == p.ctx
  }

  function EndOf(start: nat, ps: seq<Piece>): nat {
    if ps == [] then start else ps[|ps| - 1].start + ps[|ps| - 1].size
  }

  /** The pieces follow one another without gap from `start` on. */
  predicate Consecutive(start: nat, ps: seq<Piece>) {
    forall i | 0 <= i < |ps| :: ps[i].start == EndOf(start, ps[..i])
  }

  /** Registrations that never overlap an allocation live at that moment. */
  ghost predicate NoOverlap(log: seq<Call>, t: nat) {
    forall i | 0 <= i < |log| && log[i].op <= t && log[i].Registered? ::
      Fits(Replay(log[..i], t), log[i].memory.range)
  }

  ghost predicate Fits(m: MemoryMap, r: Range) {
    forall k | k in m && k != r.start :: if k < r.start then m[k].range.end <= r.start else r.end <= k
  }

  /** What the snapshots record is well formed when allocations do not overlap. */
  lemma {:induction false} SnapshotsWellFormed(log: seq<Call>, t: nat)
    requires NoOverlap(log, t)
    ensures WellFormed(Replay(log, t))
  {
    if log != [] {
      var n := |log| - 1;
      assert forall i | 0 <= i < n :: log[..n][..i] == log[..i];
      SnapshotsWellFormed(log[..n], t);
    }
  }

  /** The first address from `lo` on that is not live, or `hi` if there is none before it. */
  ghost function LivePrefix(m: MemoryMap, lo: nat, hi: nat): (stop: nat)
    requires lo <= hi
    ensures lo <= stop <= hi && AllLive(m, lo, stop) && (stop < hi ==> !Live(m, stop))
    decreases hi - lo
  {
    if lo == hi || !Live(m, lo) then lo else LivePrefix(m, lo + 1, hi)
  }

  lemma PrefixIs(m: MemoryMap, lo: nat, hi: nat, stop: nat)
    requires lo <= stop <= hi && AllLive(m, lo, stop) && (stop < hi ==> !Live(m, stop))
    ensures LivePrefix(m, lo, hi) == stop
  {
    var p := LivePrefix(m, lo, hi);
  }

  lemma LiveMore(m: MemoryMap, lo: nat, mid: nat, hi: nat, k: nat)
    requires AllLive(m, lo, mid) && mid < hi && Owns(m, k, mid) && hi <= m[k].range.end
    ensures AllLive(m, lo, hi)
  {
    forall a | lo <= a < hi ensures Live(m, a) {
      if a >= mid { assert Owns(m, k, a); }
    }
  }

  /** Only the allocation starting nearest below an address can hold it. */
  lemma NearestOwns(m: MemoryMap, a: nat)
    requires WellFormed(m)
    ensures Live(m, a) <==> Prev(m.Keys, a).Some? && Owns(m, Prev(m.Keys, a).value, a)
  {
    if Live(m, a) {
      var k: nat :| Owns(m, k, a);
      var p := Prev(m.Keys, a);
      assert p.Some? && k <= p.value;
    }
  }

  lemma ConsecutiveMore(start: nat, ps: seq<Piece>, p: Piece)
    requires Consecutive(start, ps) && p.start == EndOf(start, ps)
    ensures Consecutive(start, ps + [p]) && EndOf(start, ps + [p]) == p.start + p.size
  {
    var more := ps + [p];
    forall i | 0 <= i < |more| ensures more[i].start == EndOf(start, more[..i]) {
      if i < |ps| { assert more[..i] == ps[..i]; } else { assert more[..i] == ps; }
    }
  }

  lemma AttributedMore(m: MemoryMap, limit: nat, ps: seq<Piece>, k: nat, p: Piece)
    requires forall i | 0 <= i < |ps| :: Attributed(m, limit, ps[i])
    requires Owns(m, k, p.start) && p.size > 0 && p.start + p.size == Min(limit, m[k].range.end)
    requires m[k].op == p.op && m[k].ctx == p.ctx
    ensures forall i | 0 <= i < |ps + [p]| :: Attributed(m, limit, (ps + [p])[i])
  {
    assert Attributed(m, limit, p);
  }

  /**
   * Cuts `region` at allocation boundaries and nowhere else: consecutive pieces from its start, each attributed
   * to the one allocation it lies in, that add up to exactly the longest live prefix of the region.
   */
  method SplitRegion(m: MemoryMap, region: Range) returns (ps: seq<Piece>)
    requires WellFormed(m)
    ensures Consecutive(region.start, ps) && forall i | 0 <= i < |ps| :: Attributed(m, region.end, ps[i])
    ensures region.start <= region.end ==> EndOf(region.start, ps) == LivePrefix(m, region.start, region.end)
    ensures region.end <= region.start ==> ps == []
  {
    ps := [];
    var from, to := region.start, region.start;
    while to < region.end
      invariant Consecutive(region.start, ps) && forall i | 0 <= i < |ps| :: Attributed(m, region.end, ps[i])
      invariant to == EndOf(region.start, ps) && region.start <= to && AllLive(m, region.start, to)
      invariant to < region.end ==> from == to
      invariant region.start <= region.end ==> to <= region.end
      invariant region.end <= region.start ==> ps == []
      decreases region.end - to
    {
      NearestOwns(m, from);
      ghost var at := from;
      var op, ctx, size, start := 0, 0, 0, 0;
      match Prev(m.Keys, from) {
        case None =>
        case Some(k) =>
          if k <= from < m[k].range.end {
            to := if region.end < m[k].range.end then region.end else m[k].range.end;
            op, ctx, size, start := m[k].op, m[k].ctx, to - from, from;
            from := m[k].range.end;
          } else {
            break;
          }
      }
      if op == 0 {
        break;
      }
      var piece := Piece(op, ctx, start, size);
      LiveMore(m, region.start, at, to, Prev(m.Keys, at).value);
      ConsecutiveMore(region.start, ps, piece);
      AttributedMore(m, region.end, ps, Prev(m.Keys, at).value, piece);
      ps := ps + [piece];
    }
    if region.start <= region.end { PrefixIs(m, region.start, region.end, EndOf(region.start, ps)); }
  }
}
