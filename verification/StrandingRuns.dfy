/** The other half: a launch that can stop short has a run that strands, built step by step. */
module StrandingRuns {
  import opened Records
  import opened RecordQueue
  import opened RecordDelivery
  import opened RecordProgress
  import opened RecordStranding

  // ---------------------------------------------------------------- states of the run

  /** Warp `w` has pushed its first `done[w]` records. */
  ghost predicate Left(c: Config, todo: seq<seq<AddressRecord>>, done: seq<nat>) {
    && |todo| == |done| == |c.program|
    && forall w | 0 <= w < |done| :: done[w] <= |c.program[w]| && todo[w] == c.program[w][done[w]..]
  }

  ghost predicate At(c: Config, s: State, done: seq<nat>, warps: seq<Warp>, consumer: Consumer, flag: bool) {
    && Reachable(c, s) && Shape(c, s) && Left(c, s.todo, done)
    && s.warps == warps && s.consumer == consumer && Flag(c, s) == flag
  }

  /** All warps are about to draw, but for those that wait since epoch `e`. */
  function Crew(n: nat, late: set<nat>, e: nat): (warps: seq<Warp>)
    ensures |warps| == n && forall v | 0 <= v < n :: warps[v] == if v in late then Waiting(e) else Ready
  {
    seq(n, v => if v in late then Waiting(e) else Ready)
  }

  /** Between two records: nobody writes or leads, and every drawn slot is finished. */
  ghost predicate Calm(c: Config, s: State, done: seq<nat>, late: set<nat>, e: nat) {
    && At(c, s, done, Crew(|c.lanes|, late, e), PollFlag, false)
    && s.head == s.tail <= c.size
  }

  lemma Go(c: Config, s: State, w: nat) returns (s': State)
    requires Reachable(c, s) && Enabled(c, s, WarpStep(w))
    ensures s' == ApplyWarp(c, s, w) && Reachable(c, s')
  {
    ReachableStep(c, s, WarpStep(w));
    s' := ApplyWarp(c, s, w);
  }

  // ---------------------------------------------------------------- one record

  lemma LeftNext(c: Config, todo: seq<seq<AddressRecord>>, done: seq<nat>, w: nat)
    requires Left(c, todo, done) && w < |done| && todo[w] != []
    ensures Left(c, todo[w := todo[w][1..]], done[w := done[w] + 1])
  {
    assert todo[w][1..] == c.program[w][done[w] + 1..];
  }

  lemma PushOne(c: Config, s: State, done: seq<nat>, late: set<nat>, e: nat, w: nat) returns (s': State)
    requires Calm(c, s, done, late, e) && w < |done| && w !in late && done[w] < |c.program[w]| && s.tail < c.size
    ensures Calm(c, s', done[w := done[w] + 1], late, e) && s'.tail == s.tail + 1 && s'.epoch == s.epoch
  {
    LeftNext(c, s.todo, done, w);
    s' := Go(c, s, w);
    s' := Go(c, s', w);
    s' := Go(c, s', w);
    assert s'.warps == s.warps;
  }

  // ---------------------------------------------------------------- one rewind

  /** The next warp finds the buffer full and leads. */
  lemma Overflow(c: Config, s: State, done: seq<nat>, e: nat, w: nat) returns (s': State)
    requires Calm(c, s, done, {}, e) && w < |done| && done[w] < |c.program[w]| && s.tail == c.size
    ensures At(c, s', done, Crew(|c.lanes|, {}, s.epoch)[w := Draining], PollFlag, false)
    ensures s'.head == c.size < s'.tail && s'.epoch == s.epoch
  {
    s' := Go(c, s, w);
    assert s'.warps == Crew(|c.lanes|, {}, s.epoch)[w := Draining];
  }

  /** While it leads, the warps in `more` draw indices beyond the buffer. */
  lemma {:induction false} Park(c: Config, s: State, done: seq<nat>, w: nat, late: set<nat>, more: set<nat>)
    returns (s': State)
    requires w < |c.lanes| && At(c, s, done, Crew(|c.lanes|, late, s.epoch)[w := Draining], PollFlag, false)
    requires s.head == c.size < s.tail && w !in more && late !! more
    requires forall x | x in more :: x < |done| && done[x] < |c.program[x]|
    ensures At(c, s', done, Crew(|c.lanes|, late + more, s.epoch)[w := Draining], PollFlag, false)
    ensures s'.head == c.size < s'.tail && s'.epoch == s.epoch
    decreases more
  {
    if more == {} {
      s' := s;
      assert late + more == late;
    } else {
      var x :| x in more;
      var s1 := ParkOne(c, s, done, w, late, x);
      s' := Park(c, s1, done, w, late + {x}, more - {x});
      assert late + {x} + (more - {x}) == late + more;
    }
  }

  lemma ParkOne(c: Config, s: State, done: seq<nat>, w: nat, late: set<nat>, x: nat) returns (s': State)
    requires w < |c.lanes| && At(c, s, done, Crew(|c.lanes|, late, s.epoch)[w := Draining], PollFlag, false)
    requires s.head == c.size < s.tail && x != w && x !in late && x < |done| && done[x] < |c.program[x]|
    ensures At(c, s', done, Crew(|c.lanes|, late + {x}, s.epoch)[w := Draining], PollFlag, false)
    ensures s'.head == c.size < s'.tail && s'.epoch == s.epoch
  {
    s' := Go(c, s, x);
    assert s'.warps == Crew(|c.lanes|, late + {x}, s.epoch)[w := Draining];
  }

  /** The leader raises the flag. */
  lemma RaiseFlag(c: Config, s: State, done: seq<nat>, warps: seq<Warp>, w: nat) returns (s': State)
    requires w < |warps| && At(c, s, done, warps, PollFlag, false) && warps[w] == Draining && s.head == c.size
    ensures At(c, s', done, warps[w := Awaiting], PollFlag, true)
    ensures s'.head == s.head && s'.epoch == s.epoch
  {
    s' := Go(c, s, w);
    s' := Go(c, s', w);
    assert s'.warps == warps[w := Awaiting];
  }

  lemma Poll(c: Config, s: State) returns (s': State)
    requires Reachable(c, s) && Enabled(c, s, ConsumerStep)
    ensures s' == ApplyConsumer(c, s) && Reachable(c, s')
  {
    ReachableStep(c, s, ConsumerStep);
    s' := ApplyConsumer(c, s);
  }

  lemma {:induction false} ReadRest(c: Config, s: State, done: seq<nat>, warps: seq<Warp>, i: nat) returns (s': State)
    requires At(c, s, done, warps, Read(i), true) && i <= s.head == c.size
    ensures At(c, s', done, warps, Clear, true) && s'.head == s.head && s'.epoch == s.epoch
    decreases c.size - i
  {
    s' := Poll(c, s);
    if i < s.head { s' := ReadRest(c, s', done, warps, i + 1); }
  }

  /** The consumer reads the whole buffer and lowers the flag. */
  lemma Drain(c: Config, s: State, done: seq<nat>, warps: seq<Warp>, w: nat) returns (s': State)
    requires At(c, s, done, warps, PollFlag, true) && s.head == c.size && w < |warps| && !warps[w].Exited?
    ensures At(c, s', done, warps, PollFlag, false) && s'.head == s.head && s'.epoch == s.epoch
  {
    QueueSafety(c, s);
    ThreadsGone(c, s);
    s' := Poll(c, s);
    s' := Poll(c, s');
    s' := ReadRest(c, s', done, warps, 0);
    s' := Poll(c, s');
  }

  /** The leader rewinds head and tail. */
  lemma Rewind(c: Config, s: State, done: seq<nat>, warps: seq<Warp>, w: nat) returns (s': State)
    requires w < |warps| && At(c, s, done, warps, PollFlag, false) && warps[w] == Awaiting
    ensures At(c, s', done, warps[w := Ready], PollFlag, false)
    ensures s'.head == s'.tail == 0 && s'.epoch == s.epoch + 1
  {
    s' := Go(c, s, w);
    s' := Go(c, s', w);
    s' := Go(c, s', w);
    assert s'.warps == warps[w := Ready];
  }

  /** From a full buffer to an empty one; the warps in `late` are left waiting on the way. */
  lemma Turn(c: Config, s: State, done: seq<nat>, e: nat, w: nat, late: set<nat>) returns (s': State)
    requires Calm(c, s, done, {}, e) && w < |done| && done[w] < |c.program[w]| && s.tail == c.size && w !in late
    requires forall x | x in late :: x < |done| && done[x] < |c.program[x]|
    ensures Calm(c, s', done, late, s.epoch) && s'.tail == 0 && s'.epoch == s.epoch + 1
  {
    s' := Overflow(c, s, done, e, w);
    s' := Park(c, s', done, w, {}, late);
    assert {} + late == late;
    var crew := Crew(|c.lanes|, late, s.epoch);
    s' := RaiseFlag(c, s', done, crew[w := Draining], w);
    s' := Drain(c, s', done, crew[w := Draining][w := Awaiting], w);
    s' := Rewind(c, s', done, crew[w := Draining][w := Awaiting], w);
    assert crew[w := Draining][w := Awaiting][w := Ready] == crew;
  }

  // ---------------------------------------------------------------- many records

  /** The warps that are not late may push more, up to the target. */
  predicate Towards(lens: seq<nat>, done: seq<nat>, late: set<nat>, target: seq<nat>) {
    && |target| == |done| == |lens|
    && forall w | 0 <= w < |done| :: done[w] <= target[w] <= lens[w] && (w in late ==> done[w] == target[w])
  }

  /** Every warp pushes up to its target; the buffer is turned over whenever it is full and more is to come. */
  lemma {:induction false} PushMany(c: Config, s: State, done: seq<nat>, late: set<nat>, e: nat, target: seq<nat>)
    returns (s': State)
    requires Calm(c, s, done, late, e) && Towards(Lengths(c), done, late, target)
    requires late == {} || Sum(target) - Sum(done) <= c.size - s.tail
    ensures Calm(c, s', target, late, e) && if done == target then s' == s else s'.tail >= 1
    ensures late != {} ==> s'.tail == s.tail + Sum(target) - Sum(done)
    decreases Sum(target) - Sum(done)
  {
    if done == target {
      s' := s;
    } else {
      var w, more := NextTowards(Lengths(c), done, late, target);
      s' := PushNext(c, s, done, late, e, w);
      s' := PushMany(c, s', more, late, e, target);
    }
  }

  lemma NextTowards(lens: seq<nat>, done: seq<nat>, late: set<nat>, target: seq<nat>) returns (w: nat, more: seq<nat>)
    requires Towards(lens, done, late, target) && done != target
    ensures w < |done| && w !in late && done[w] < lens[w]
    ensures more == done[w := done[w] + 1] && Towards(lens, more, late, target)
    ensures Sum(more) == Sum(done) + 1 && Sum(done) < Sum(target)
  {
    w := Behind(done, target);
    more := done[w := done[w] + 1];
    SumUpdate(done, w, done[w] + 1);
    SumOrder(done, target);
  }

  lemma PushNext(c: Config, s: State, done: seq<nat>, late: set<nat>, e: nat, w: nat) returns (s': State)
    requires Calm(c, s, done, late, e) && w < |done| && w !in late && done[w] < |c.program[w]|
    requires late == {} || s.tail < c.size
    ensures Calm(c, s', done[w := done[w] + 1], late, e) && s'.tail >= 1
    ensures late != {} ==> s'.tail == s.tail + 1
  {
    s' := s;
    if s.tail == c.size { s' := FreshBuffer(c, s, done, e, w); }
    s' := PushOne(c, s', done, late, e, w);
  }

  lemma Behind(a: seq<nat>, b: seq<nat>) returns (w: nat)
    requires |a| == |b| && a != b && forall i | 0 <= i < |a| :: a[i] <= b[i]
    ensures w < |a| && a[w] < b[w]
  {
    w :| w < |a| && a[w] != b[w];
  }

  lemma FreshBuffer(c: Config, s: State, done: seq<nat>, e: nat, w: nat) returns (s': State)
    requires Calm(c, s, done, {}, e) && w < |done| && done[w] < |c.program[w]| && s.tail == c.size
    ensures Calm(c, s', done, {}, e) && s'.tail == 0
  {
    s' := Turn(c, s, done, e, w, {});
    assert Crew(|c.lanes|, {}, s.epoch) == Crew(|c.lanes|, {}, e);
  }

  /** The late warps wait, the first `k` others have left. */
  function Leaving(n: nat, late: set<nat>, e: nat, k: nat): (warps: seq<Warp>)
    ensures |warps| == n
    ensures forall v | 0 <= v < n :: warps[v] == if v in late then Waiting(e) else if v < k then Exited else Ready
  {
    seq(n, v => if v in late then Waiting(e) else if v < k then Exited else Ready)
  }

  lemma {:induction false} Leave(c: Config, s: State, done: seq<nat>, late: set<nat>, e: nat, k: nat)
    returns (s': State)
    requires k <= |c.lanes| && At(c, s, done, Leaving(|c.lanes|, late, e, k), PollFlag, false)
    requires forall w | 0 <= w < |done| && w !in late :: done[w] == |c.program[w]|
    ensures At(c, s', done, Leaving(|c.lanes|, late, e, |c.lanes|), PollFlag, false) && s'.tail == s.tail
    decreases |c.lanes| - k
  {
    if k == |c.lanes| {
      s' := s;
    } else if k in late {
      assert Leaving(|c.lanes|, late, e, k) == Leaving(|c.lanes|, late, e, k + 1);
      s' := Leave(c, s, done, late, e, k + 1);
    } else {
      var s1 := LeaveOne(c, s, done, late, e, k);
      s' := Leave(c, s1, done, late, e, k + 1);
    }
  }

  lemma LeaveOne(c: Config, s: State, done: seq<nat>, late: set<nat>, e: nat, k: nat) returns (s': State)
    requires k < |c.lanes| && At(c, s, done, Leaving(|c.lanes|, late, e, k), PollFlag, false)
    requires k !in late && done[k] == |c.program[k]|
    ensures At(c, s', done, Leaving(|c.lanes|, late, e, k + 1), PollFlag, false) && s'.tail == s.tail
  {
    QueueSafety(c, s);
    LiveCovers(c.lanes, s.warps, k);
    s' := Go(c, s, k);
    assert s'.warps == Leaving(|c.lanes|, late, e, k + 1);
  }

  // ---------------------------------------------------------------- the whole run

  lemma Start(c: Config) returns (s: State)
    requires c.Valid()
    ensures Calm(c, s, seq(|c.program|, w => 0), {}, 0) && s.tail == 0
  {
    var warps := seq(|c.lanes|, i => Ready);
    s := State(0, 0, false, false, Live(c.lanes, warps), seq(c.size, i => AddressRecord(0, 0, [], 0, [])),
               warps, c.program, PollFlag, 0, map[], multiset{}, multiset{});
    assert Initial(c, s) && Runs(c, s, [], s);
    assert s.warps == Crew(|c.lanes|, {}, 0);
  }

  /** `n` fewer, taken where `from` allows. */
  lemma {:induction false} TakeAway(d: seq<nat>, from: seq<nat>, n: nat) returns (mid: seq<nat>)
    requires |from| == |d| && (forall w | 0 <= w < |d| :: from[w] <= d[w]) && n <= Sum(from)
    ensures |mid| == |d| && Sum(mid) + n == Sum(d)
    ensures forall w | 0 <= w < |d| :: mid[w] <= d[w] && (mid[w] < d[w] ==> from[w] > 0)
    decreases |d|
  {
    if d == [] {
      mid := [];
    } else {
      var last := |d| - 1;
      var take := if n <= from[last] then n else from[last];
      var rest := TakeAway(d[..last], from[..last], n - take);
      mid := rest + [d[last] - take];
      assert mid[..last] == rest;
    }
  }

  lemma WholeRounds(k: nat, e: nat, size: nat, tail: nat)
    requires Full(k, size) == Full(e, size) + tail && 1 <= tail <= size
    ensures tail == size
  {
    if k <= e {
      FullOrder(k, e, size);
    } else {
      FullOrder(e + 1, k, size);
    }
  }

  /** A buffer that is not empty after a whole number of fillings is full. */
  lemma FullAgain(c: Config, s: State, done: seq<nat>, k: nat)
    requires Calm(c, s, done, {}, 0) && Sum(done) == Full(k, c.size) && s.tail >= 1
    ensures s.tail == c.size
  {
    ReachableCounted(c, s);
    assert Done(c, s.todo) == done;
    assert Settled(s);
    WholeRounds(k, s.epoch, c.size, s.tail);
  }

  /** Up to the last filling but one, after which some warp still has a record for the last. */
  lemma FillUp(c: Config, mid: seq<nat>, k: nat) returns (s: State)
    requires c.Valid() && |mid| == |c.program| && (forall w | 0 <= w < |mid| :: mid[w] <= |c.program[w]|)
    requires k >= 1 && Sum(mid) == Full(k, c.size)
    ensures Calm(c, s, mid, {}, 0) && s.tail == c.size
  {
    var none: seq<nat> := seq(|c.program|, w => 0);
    SumZero(none);
    s := Start(c);
    s := PushMany(c, s, none, {}, 0, mid);
    FullAgain(c, s, mid, k);
  }

  /** The last turn parks the late warps; the others push the last filling and leave. */
  lemma ParkAndLeave(c: Config, s: State, mid: seq<nat>, d: seq<nat>, late: set<nat>, w: nat) returns (s': State)
    requires Calm(c, s, mid, {}, 0) && s.tail == c.size && |d| == |mid| && Sum(mid) + c.size == Sum(d)
    requires w < |d| && mid[w] < d[w] && late != {} && forall x | x in late :: x < |d|
    requires forall x | 0 <= x < |d| :: mid[x] <= d[x] <= |c.program[x]|
    requires forall x | 0 <= x < |d| :: if x in late then mid[x] == d[x] < |c.program[x]| else d[x] == |c.program[x]|
    ensures Reachable(c, s') && Stranded(c, s')
  {
    var e := s.epoch;
    s' := Turn(c, s, mid, 0, w, late);
    s' := PushMany(c, s', mid, late, e, d);
    assert s'.warps == Leaving(|c.lanes|, late, e, 0);
    s' := Leave(c, s', d, late, e, 0);
    var p :| p in late;
    assert !s'.warps[p].Exited?;
  }

  /** Every launch that can stop short has a run that strands. */
  lemma StopsShortStrands(c: Config, d: seq<nat>) returns (s: State)
    requires c.Valid() && StopsShort(Lengths(c), c.size, d)
    ensures Reachable(c, s) && Stranded(c, s)
  {
    var lens := Lengths(c);
    var late := set w: nat | w < |d| && d[w] < lens[w];
    var p :| 0 <= p < |d| && d[p] < lens[p];
    assert p in late;
    var k: nat :| k >= 2 && Fills(k, c.size, Sum(d));
    var mid := TakeAway(d, Finishers(lens, d), c.size);
    s := FillUp(c, mid, k - 1);
    var w := Behind(mid, d);
    s := ParkAndLeave(c, s, mid, d, late, w);
  }

  /**
   * Stranding, as a matter of the launch: some schedule strands a warp if and only if the warps can stop
   * short, pushing records that fill the buffer a whole number of times.
   */
  lemma StrandingIff(c: Config)
    requires c.Valid()
    ensures (exists s :: Reachable(c, s) && Stranded(c, s)) <==> exists d :: StopsShort(Lengths(c), c.size, d)
  {
    if s :| Reachable(c, s) && Stranded(c, s) {
      var d := StrandedStopsShort(c, s);
    }
    if d :| StopsShort(Lengths(c), c.size, d) {
      var s := StopsShortStrands(c, d);
    }
  }

  /** A launch that cannot stop short only ever stops when everything has been delivered. */
  lemma SafeLaunch(c: Config, s: State)
    requires Reachable(c, s) && !exists d :: StopsShort(Lengths(c), c.size, d)
    ensures (exists a :: Advances(c, s, a)) || (s.consumer.Finished? && s.delivered == TodoBag(c.program))
  {
    ProgressExact(c, s);
    if Stranded(c, s) { var d := StrandedStopsShort(c, s); }
  }

  /** Stopping short takes at least two warps and more records than fill the buffer twice. */
  lemma StoppingShortNeeds(lens: seq<nat>, size: nat, d: seq<nat>)
    requires size >= 1 && StopsShort(lens, size, d)
    ensures |lens| >= 2 && Sum(lens) > 2 * size
  {
    var w :| 0 <= w < |d| && d[w] < lens[w];
    var v := SomePositive(Finishers(lens, d));
    assert v != w;
    SumOrder(d, lens);
    var k: nat :| k >= 2 && Fills(k, size, Sum(d));
    FullOrder(2, k, size);
  }

  lemma {:induction false} SomePositive(ns: seq<nat>) returns (i: nat)
    requires Sum(ns) > 0
    ensures i < |ns| && ns[i] > 0
  {
    i := |ns| - 1;
    if ns[i] == 0 { i := SomePositive(ns[..i]); }
  }

  /** The smallest launch that strands: one slot and three warps with one record each. */
  lemma StrandingHappens(r: AddressRecord) returns (s: State)
    ensures var c := Config(1, true, [1, 1, 1], [[r], [r], [r]]); Reachable(c, s) && Stranded(c, s)
  {
    var c, d := Config(1, true, [1, 1, 1], [[r], [r], [r]]), [1, 1, 0];
    assert Lengths(c) == [1, 1, 1] && Finishers(Lengths(c), d) == d;
    assert Sum([]) == 0;
    assert Sum([1]) == 1 by { assert [1][..0] == []; }
    assert Sum([1, 1]) == 2 by { assert [1, 1][..1] == [1]; }
    assert Sum(d) == 2 by { assert d[..2] == [1, 1]; }
    assert Fills(2, c.size, Sum(d)) && d[2] < Lengths(c)[2];
    s := StopsShortStrands(c, d);
  }
}
