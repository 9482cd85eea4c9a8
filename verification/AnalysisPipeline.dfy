/**
 * The consumer kernel `gpu_analysis_interval_merge` (src/gpu-analysis.cu) end to end: whatever the warps
 * recorded, through the queue, the compaction and the merging, comes out as exactly the accessed bytes.
 */
module AnalysisPipeline {
  import opened Records
  import RecordQueue
  import RecordDelivery
  import opened Ranges
  import opened SweepMerge
  import opened BufferMerge
  import opened BitonicWarps
  import opened WarpCompact

  /** A record whose addresses stay below the limit of the shift in the tile merge. */
  predicate Mergeable(r: AddressRecord) {
    && WellFormed(r) && r.size < ADDRESS_LIMIT
    && forall i | 0 <= i < LANES && r.active[i] :: r.address[i] + r.size < ADDRESS_LIMIT
  }

  predicate AllMergeable(rs: seq<AddressRecord>) { forall i | 0 <= i < |rs| :: Mergeable(rs[i]) }

  /** Record `r` counts for this direction, READ or WRITE, and accesses byte `x`. */
  predicate Hits(r: AddressRecord, bit: nat, x: int) {
    bit > 0 && Flagged(r.flags, bit) && WellFormed(r) && Accessed(r, x)
  }

  predicate AnyHits(rs: seq<AddressRecord>, bit: nat, x: int) { exists i :: 0 <= i < |rs| && Hits(rs[i], bit, x) }

  ghost function HitBytes(rs: seq<AddressRecord>, bit: nat): iset<int> { iset x: int | AnyHits(rs, bit, x) }

  // ---------------------------------------------------------------- one record

  lemma {:induction false} PushedSmall(s: Warp, size: nat, starts: seq<bool>, n: nat)
    requires |starts| == LANES && n <= LANES && forall i | 0 <= i < LANES :: s[i] + size < ADDRESS_LIMIT
    requires Fits(s, size)
    ensures |Pushed(s, size, starts, n)| <= n && Small(Pushed(s, size, starts, n))
  {
    if n > 0 {
      PushedSmall(s, size, starts, n - 1);
      RangeProper(s, size, starts, n - 1);
    }
  }

  lemma CompactedSmall(r: AddressRecord)
    requires Mergeable(r)
    ensures |Compacted(r)| <= LANES && Small(Compacted(r))
  {
    var a := Addresses(r);
    WarpSortSorts(a);
    SortedSmall(r, a, WarpSort(a));
  }

  lemma SortedSmall(r: AddressRecord, a: Warp, s: Warp)
    requires Mergeable(r) && a == Addresses(r) && Ascending(s) && multiset(s) == multiset(a)
    ensures var out := Pushed(s, r.size, StartPoints(s, r.size), LANES); |out| <= LANES && Small(out)
  {
    FitsPermuted(r, s);
    forall i | 0 <= i < LANES ensures s[i] + r.size < ADDRESS_LIMIT {
      assert s[i] in multiset(a);
    }
    PushedSmall(s, r.size, StartPoints(s, r.size), LANES);
  }

  /** What one record adds to a buffer. */
  function Added(r: AddressRecord, bit: nat): seq<Range>
    requires WellFormed(r) && bit > 0
  {
    if Flagged(r.flags, bit) then Compacted(r) else []
  }

  lemma AddedBytes(rs: seq<AddressRecord>, i: nat, bit: nat)
    requires i < |rs| && Mergeable(rs[i]) && bit > 0
    ensures HitBytes(rs[..i + 1], bit) == HitBytes(rs[..i], bit) + Bytes(Added(rs[i], bit))
    ensures |Added(rs[i], bit)| <= LANES && Small(Added(rs[i], bit))
  {
    CompactExact(rs[i]);
    CompactedSmall(rs[i]);
    AddedBytesOf(rs, i, bit, Added(rs[i], bit));
  }

  lemma AddedBytesOf(rs: seq<AddressRecord>, i: nat, bit: nat, out: seq<Range>)
    requires i < |rs| && forall x: int :: Covers(out, x) <==> Hits(rs[i], bit, x)
    ensures HitBytes(rs[..i + 1], bit) == HitBytes(rs[..i], bit) + Bytes(out)
  {
    forall x: int
      ensures x in HitBytes(rs[..i + 1], bit) <==> x in HitBytes(rs[..i], bit) || Covers(out, x)
    {
      if x in HitBytes(rs[..i + 1], bit) {
        var k :| 0 <= k < i + 1 && Hits(rs[..i + 1][k], bit, x);
        if k < i { assert Hits(rs[..i][k], bit, x); }
      }
      if x in HitBytes(rs[..i], bit) {
        var k :| 0 <= k < i && Hits(rs[..i][k], bit, x);
        assert Hits(rs[..i + 1][k], bit, x);
      }
      if Covers(out, x) { assert Hits(rs[..i + 1][i], bit, x); }
    }
  }

  // ---------------------------------------------------------------- one batch

  /**
   * An output buffer with what the host has copied out of it so far. A warp that finds the buffer full
   * waits for the host to copy all of it, rewinds it and starts over.
   */
  class OutputBuffer {
    const buffer: AnalysisBuffer
    var taken: seq<Range>

    ghost predicate Ready()
      reads this, buffer, buffer.records
    {
      1 <= buffer.records.Length && buffer.headIndex <= buffer.records.Length
      && Small(buffer.records[..buffer.headIndex])
    }

    /** The bytes copied out and the bytes still in the buffer. */
    ghost function Held(): iset<int>
      requires Ready()
      reads this, buffer, buffer.records
    {
      Bytes(taken) + Bytes(buffer.records[..buffer.headIndex])
    }

    constructor (size: nat)
      requires size >= 1
      ensures fresh(buffer) && fresh(buffer.records) && Ready() && Held() == iset{}
    {
      buffer := new AnalysisBuffer(size);
      taken := [];
    }

    /** The host copies a full buffer out, and it is rewound. */
    method MakeRoom()
      requires Ready()
      modifies this, buffer
      ensures Ready() && buffer.headIndex < buffer.records.Length && Held() == old(Held())
    {
      if buffer.headIndex == buffer.records.Length {
        BytesConcat(taken, buffer.records[..buffer.headIndex]);
        taken := taken + buffer.records[..buffer.headIndex];
        buffer.headIndex, buffer.tailIndex := 0, 0;
      }
    }

    method PushRange(r: Range)
      requires Ready() && Small([r])
      modifies this, buffer, buffer.records
      ensures Ready() && Held() == old(Held()) + Bytes([r])
    {
      MakeRoom();
      ghost var was := buffer.records[..buffer.headIndex];
      assert [r][0] == r;
      buffer.records[buffer.headIndex] := r;
      buffer.headIndex, buffer.tailIndex := buffer.headIndex + 1, buffer.headIndex + 1;
      assert buffer.records[..buffer.headIndex] == was + [r];
      BytesConcat(was, [r]);
    }

    method Push(out: seq<Range>)
      requires Ready() && Small(out)
      modifies this, buffer, buffer.records
      ensures Ready() && Held() == old(Held()) + Bytes(out)
    {
      ghost var held := Held();
      for i := 0 to |out|
        invariant Ready() && Held() == held + Bytes(out[..i])
      {
        BytesConcat(out[..i], [out[i]]);
        assert out[..i + 1] == out[..i] + [out[i]];
        PushRange(out[i]);
      }
      assert out[..|out|] == out;
    }

    /** Merges a buffer that holds anything. */
    method Merge(half: nat)
      requires Ready() && half >= 1
      modifies buffer, buffer.records
      ensures Ready() && Held() == old(Held())
    {
      if buffer.headIndex != 0 {
        buffer.IntervalMerge(half);
      }
    }
  }

  /** Two buffers that share nothing. */
  ghost predicate Apart(read: OutputBuffer, write: OutputBuffer) {
    read != write && read.buffer != write.buffer && read.buffer.records != write.buffer.records
  }

  /** Compacts one record into both buffers. */
  method CompactInto(read: OutputBuffer, write: OutputBuffer, r: AddressRecord)
    requires Apart(read, write) && read.Ready() && write.Ready() && Mergeable(r)
    modifies read, read.buffer, read.buffer.records, write, write.buffer, write.buffer.records
    ensures read.Ready() && read.Held() == old(read.Held()) + Bytes(Added(r, READ))
    ensures write.Ready() && write.Held() == old(write.Held()) + Bytes(Added(r, WRITE))
  {
    CompactedSmall(r);
    var readRanges, writeRanges := IntervalCompact(r);
    read.Push(readRanges);
    write.Push(writeRanges);
  }

  /** Compacts every record of a batch into the read and the write buffer. */
  method CompactBatch(read: OutputBuffer, write: OutputBuffer, batch: seq<AddressRecord>)
    requires Apart(read, write) && read.Ready() && write.Ready() && AllMergeable(batch)
    modifies read, read.buffer, read.buffer.records, write, write.buffer, write.buffer.records
    ensures read.Ready() && read.Held() == old(read.Held()) + HitBytes(batch, READ)
    ensures write.Ready() && write.Held() == old(write.Held()) + HitBytes(batch, WRITE)
  {
    ghost var r0, w0 := read.Held(), write.Held();
    for i := 0 to |batch|
      invariant read.Ready() && read.Held() == r0 + HitBytes(batch[..i], READ)
      invariant write.Ready() && write.Held() == w0 + HitBytes(batch[..i], WRITE)
    {
      AddedBytes(batch, i, READ);
      AddedBytes(batch, i, WRITE);
      CompactInto(read, write, batch[i]);
    }
    assert batch[..|batch|] == batch;
  }

  /** Compacts a batch, then merges both buffers. */
  method ConsumeBatch(read: OutputBuffer, write: OutputBuffer, batch: seq<AddressRecord>, half: nat)
    requires Apart(read, write) && read.Ready() && write.Ready() && half >= 1 && AllMergeable(batch)
    modifies read, read.buffer, read.buffer.records, write, write.buffer, write.buffer.records
    ensures read.Ready() && read.Held() == old(read.Held()) + HitBytes(batch, READ)
    ensures write.Ready() && write.Held() == old(write.Held()) + HitBytes(batch, WRITE)
  {
    CompactBatch(read, write, batch);
    read.Merge(half);
    write.Merge(half);
  }

  function Flat(batches: seq<seq<AddressRecord>>): seq<AddressRecord> {
    if batches == [] then [] else Flat(batches[..|batches| - 1]) + batches[|batches| - 1]
  }

  lemma HitBytesConcat(a: seq<AddressRecord>, b: seq<AddressRecord>, bit: nat)
    ensures HitBytes(a + b, bit) == HitBytes(a, bit) + HitBytes(b, bit)
  {
    forall x: int ensures x in HitBytes(a + b, bit) <==> x in HitBytes(a, bit) || x in HitBytes(b, bit) {
      if x in HitBytes(a, bit) {
        var k :| 0 <= k < |a| && Hits(a[k], bit, x);
        assert Hits((a + b)[k], bit, x);
      }
      if x in HitBytes(b, bit) {
        var k :| 0 <= k < |b| && Hits(b[k], bit, x);
        assert Hits((a + b)[|a| + k], bit, x);
      }
    }
  }

  /** The consumer's loop: one batch each time the flag is up, and the last one when all threads have left. */
  method Consume(read: OutputBuffer, write: OutputBuffer, batches: seq<seq<AddressRecord>>, half: nat)
    requires Apart(read, write) && read.Ready() && write.Ready() && half >= 1 && AllMergeable(Flat(batches))
    requires read.Held() == write.Held() == iset{}
    modifies read, read.buffer, read.buffer.records, write, write.buffer, write.buffer.records
    ensures read.Ready() && read.Held() == HitBytes(Flat(batches), READ)
    ensures write.Ready() && write.Held() == HitBytes(Flat(batches), WRITE)
  {
    assert batches[..|batches|] == batches;
    assert HitBytes([], READ) == HitBytes([], WRITE) == iset{};
    for i := 0 to |batches|
      invariant read.Ready() && read.Held() == HitBytes(Flat(batches[..i]), READ)
      invariant write.Ready() && write.Held() == HitBytes(Flat(batches[..i]), WRITE)
    {
      FlatNext(batches, i);
      HitBytesConcat(Flat(batches[..i]), batches[i], READ);
      HitBytesConcat(Flat(batches[..i]), batches[i], WRITE);
      ConsumeBatch(read, write, batches[i], half);
    }
  }

  lemma FlatNext(batches: seq<seq<AddressRecord>>, i: nat)
    requires i < |batches| && AllMergeable(Flat(batches))
    ensures Flat(batches[..i + 1]) == Flat(batches[..i]) + batches[i]
    ensures |Flat(batches[..i + 1])| <= |Flat(batches)| && AllMergeable(batches[i])
  {
    assert batches[..i + 1][..i] == batches[..i];
    FlatPrefix(batches, i + 1);
    var flat := Flat(batches);
    forall k | 0 <= k < |batches[i]| ensures Mergeable(batches[i][k]) {
      assert batches[i][k] == flat[|Flat(batches[..i])| + k];
    }
  }

  lemma {:induction false} FlatPrefix(batches: seq<seq<AddressRecord>>, i: nat)
    requires i <= |batches|
    ensures Flat(batches[..i]) <= Flat(batches)
    decreases |batches|
  {
    if i == |batches| {
      assert batches[..i] == batches;
    } else {
      var front := batches[..|batches| - 1];
      FlatPrefix(front, i);
      assert front[..i] == batches[..i];
    }
  }

  // ---------------------------------------------------------------- end to end

  /** Byte `x` is accessed in this direction by a record some warp set out to make. */
  ghost predicate Recorded(program: seq<seq<AddressRecord>>, bit: nat, x: int) {
    exists w, i :: 0 <= w < |program| && 0 <= i < |program[w]| && Hits(program[w][i], bit, x)
  }

  lemma {:induction false} BagMember(program: seq<seq<AddressRecord>>, r: AddressRecord)
    ensures r in RecordDelivery.TodoBag(program) <==> exists w :: 0 <= w < |program| && r in program[w]
  {
    if program != [] {
      BagMember(program[1..], r);
      if w :| 0 <= w < |program[1..]| && r in program[1..][w] { assert r in program[w + 1]; }
      if w :| 0 <= w < |program| && r in program[w] && w > 0 { assert r in program[1..][w - 1]; }
    }
  }

  /** Once the consumer has finished, the records it read hit exactly the bytes that the warps' records hit. */
  lemma EndToEnd(c: RecordQueue.Config, s: RecordQueue.State, batches: seq<seq<AddressRecord>>, bit: nat)
    requires RecordQueue.Reachable(c, s) && s.consumer.Finished? && multiset(Flat(batches)) == s.delivered
    ensures forall x: int :: x in HitBytes(Flat(batches), bit) <==> Recorded(c.program, bit, x)
  {
    RecordDelivery.ExactlyOnce(c, s);
    forall x: int ensures x in HitBytes(Flat(batches), bit) <==> Recorded(c.program, bit, x) {
      SameRecords(c.program, Flat(batches), bit, x);
    }
  }

  lemma SameRecords(program: seq<seq<AddressRecord>>, rs: seq<AddressRecord>, bit: nat, x: int)
    requires multiset(rs) == RecordDelivery.TodoBag(program)
    ensures AnyHits(rs, bit, x) <==> Recorded(program, bit, x)
  {
    if AnyHits(rs, bit, x) {
      var i :| 0 <= i < |rs| && Hits(rs[i], bit, x);
      assert rs[i] in multiset(rs);
      BagMember(program, rs[i]);
      var w :| 0 <= w < |program| && rs[i] in program[w];
      var k :| 0 <= k < |program[w]| && program[w][k] == rs[i];
    }
    if Recorded(program, bit, x) {
      var w, i :| 0 <= w < |program| && 0 <= i < |program[w]| && Hits(program[w][i], bit, x);
      BagMember(program, program[w][i]);
      assert program[w][i] in multiset(rs);
      var k :| 0 <= k < |rs| && rs[k] == program[w][i];
    }
  }

  ghost function RecordedBytes(program: seq<seq<AddressRecord>>, bit: nat): iset<int> {
    iset x: int | Recorded(program, bit, x)
  }

  lemma DeliveredMergeable(program: seq<seq<AddressRecord>>, rs: seq<AddressRecord>)
    requires multiset(rs) == RecordDelivery.TodoBag(program)
    requires forall w | 0 <= w < |program| :: AllMergeable(program[w])
    ensures AllMergeable(rs)
  {
    forall i | 0 <= i < |rs| ensures Mergeable(rs[i]) {
      assert rs[i] in multiset(rs);
      BagMember(program, rs[i]);
      var w :| 0 <= w < |program| && rs[i] in program[w];
      var k :| 0 <= k < |program[w]| && program[w][k] == rs[i];
    }
  }

  /**
   * End to end, for a run `s` of the queue in which the consumer has finished: whatever batches it read the
   * records in, and however often the host had to make room, the two buffers and what was copied out of
   * them hold exactly the bytes all warps read and wrote.
   */
  method AnalyzeRun(
    c: RecordQueue.Config, ghost s: RecordQueue.State, batches: seq<seq<AddressRecord>>,
    read: OutputBuffer, write: OutputBuffer, half: nat)
    requires RecordQueue.Reachable(c, s) && s.consumer.Finished? && multiset(Flat(batches)) == s.delivered
    requires forall w | 0 <= w < |c.program| :: AllMergeable(c.program[w])
    requires Apart(read, write) && read.Ready() && write.Ready() && half >= 1
    requires read.Held() == write.Held() == iset{}
    modifies read, read.buffer, read.buffer.records, write, write.buffer, write.buffer.records
    ensures read.Ready() && read.Held() == RecordedBytes(c.program, READ)
    ensures write.Ready() && write.Held() == RecordedBytes(c.program, WRITE)
  {
    RecordDelivery.ExactlyOnce(c, s);
    DeliveredMergeable(c.program, Flat(batches));
    EndToEnd(c, s, batches, READ);
    EndToEnd(c, s, batches, WRITE);
    Consume(read, write, batches, half);
  }
}
