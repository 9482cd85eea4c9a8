/**
 * Which launches of the record queue can strand a warp. The condition is on the launch alone: on the buffer
 * size and on how many records each warp is going to make.
 */
module RecordStranding {
  import opened Records
  import opened RecordQueue
  import opened RecordDelivery
  import opened RecordProgress

  function Sum(ns: seq<nat>): nat {
    if ns == [] then 0 else Sum(ns[..|ns| - 1]) + ns[|ns| - 1]
  }

  lemma {:induction false} SumUpdate(ns: seq<nat>, i: nat, x: nat)
    requires i < |ns|
    ensures Sum(ns[i := x]) + ns[i] == Sum(ns) + x
  {
    var last := |ns| - 1;
    if i == last {
      assert ns[i := x][..last] == ns[..last];
    } else {
      SumUpdate(ns[..last], i, x);
      assert ns[i := x][..last] == ns[..last][i := x];
    }
  }

  lemma {:induction false} SumOrder(a: seq<nat>, b: seq<nat>)
    requires |a| == |b| && forall i | 0 <= i < |a| :: a[i] <= b[i]
    ensures Sum(a) <= Sum(b) && (Sum(a) == Sum(b) ==> a == b)
  {
    if a != [] {
      var last := |a| - 1;
      SumOrder(a[..last], b[..last]);
      assert a == a[..last] + [a[last]] && b == b[..last] + [b[last]];
    }
  }

  lemma {:induction false} SumZero(ns: seq<nat>)
    requires forall i | 0 <= i < |ns| :: ns[i] == 0
    ensures Sum(ns) == 0
  {
    if ns != [] { SumZero(ns[..|ns| - 1]); }
  }

  // ---------------------------------------------------------------- the condition

  function Lengths(c: Config): (ns: seq<nat>)
    ensures |ns| == |c.program|
  {
    seq(|c.program|, w requires 0 <= w < |c.program| => |c.program[w]|)
  }

  /** What the warps that push everything push, when warp `w` pushes `d[w]` records. */
  function Finishers(lens: seq<nat>, d: seq<nat>): (ns: seq<nat>)
    requires |d| == |lens|
    ensures |ns| == |d|
  {
    seq(|d|, w requires 0 <= w < |d| => if d[w] == lens[w] then d[w] else 0)
  }

  /** The records of `k` full buffers. */
  function Full(k: nat, size: nat): nat { if k == 0 then 0 else Full(k - 1, size) + size }

  lemma {:induction false} FullOrder(j: nat, k: nat, size: nat)
    requires j <= k
    ensures Full(j, size) <= Full(k, size)
  {
    if j < k { FullOrder(j, k - 1, size); }
  }

  /** `n` records fill a buffer of `size` slots exactly `k` times. */
  predicate Fills(k: nat, size: nat, n: nat) { n == Full(k, size) }

  /**
   * A way to stop short: some warp keeps records back, the records pushed fill the buffer a whole number of
   * times, at least twice, and the warps that push everything could fill it once alone.
   */
  ghost predicate StopsShort(lens: seq<nat>, size: nat, d: seq<nat>) {
    && |d| == |lens| && (forall w | 0 <= w < |d| :: d[w] <= lens[w])
    && (exists w :: 0 <= w < |d| && d[w] < lens[w])
    && (exists k: nat :: k >= 2 && Fills(k, size, Sum(d)))
    && Sum(Finishers(lens, d)) >= size
  }

  // ---------------------------------------------------------------- stranding needs it

  /** How many records each warp has pushed; and the same without the waiters of earlier epochs. */
  function Done(c: Config, todo: seq<seq<AddressRecord>>): (ns: seq<nat>)
    requires |todo| == |c.program| && forall w | 0 <= w < |todo| :: |todo[w]| <= |c.program[w]|
    ensures |ns| == |todo|
  {
    seq(|todo|, w requires 0 <= w < |todo| => |c.program[w]| - |todo[w]|)
  }

  predicate Late(p: Warp, epoch: nat) { p.Waiting? && p.epoch < epoch }

  function DoneInTime(done: seq<nat>, warps: seq<Warp>, epoch: nat): (ns: seq<nat>)
    requires |done| == |warps|
    ensures |ns| == |done|
  {
    seq(|done|, w requires 0 <= w < |done| => if Late(warps[w], epoch) then 0 else done[w])
  }

  ghost predicate Counted(c: Config, s: State) {
    && |s.todo| == |s.warps| == |c.program| && (forall w | 0 <= w < |s.todo| :: |s.todo[w]| <= |c.program[w]|)
    && var done := Done(c, s.todo);
       && Sum(done) == Full(s.epoch, c.size) + (if Settled(s) then s.head else c.size)
       && (Settled(s) ==> s.head <= Sum(DoneInTime(done, s.warps, s.epoch)))
  }

  lemma DonePush(c: Config, todo: seq<seq<AddressRecord>>, w: nat)
    requires |todo| == |c.program| && (forall v | 0 <= v < |todo| :: |todo[v]| <= |c.program[v]|)
    requires w < |todo| && todo[w] != []
    ensures var done := Done(c, todo);
            var done' := Done(c, todo[w := todo[w][1..]]);
            done' == done[w := done[w] + 1] && Sum(done') == Sum(done) + 1
  {
    var done := Done(c, todo);
    SumUpdate(done, w, done[w] + 1);
    assert Done(c, todo[w := todo[w][1..]]) == done[w := done[w] + 1];
  }

  lemma InTimePush(done: seq<nat>, warps: seq<Warp>, epoch: nat, w: nat)
    requires |done| == |warps| && w < |warps| && !warps[w].Waiting?
    ensures Sum(DoneInTime(done[w := done[w] + 1], warps[w := Ready], epoch)) == Sum(DoneInTime(done, warps, epoch)) + 1
  {
    var ns := DoneInTime(done, warps, epoch);
    assert DoneInTime(done[w := done[w] + 1], warps[w := Ready], epoch) == ns[w := done[w] + 1];
    SumUpdate(ns, w, done[w] + 1);
  }

  lemma PushCounts(c: Config, s: State, w: nat)
    requires Settled(s) && Counted(c, s) && Enabled(c, s, WarpStep(w)) && s.warps[w].Written?
    ensures Counted(c, ApplyWarp(c, s, w))
  {
    DonePush(c, s.todo, w);
    InTimePush(Done(c, s.todo), s.warps, s.epoch, w);
    assert Settled(ApplyWarp(c, s, w));
  }

  /** A step that pushes nothing and rewinds nothing. */
  lemma OtherCounts(c: Config, s: State, w: nat, p: Warp)
    requires Counted(c, s) && w < |s.warps| && (Late(p, s.epoch) ==> Late(s.warps[w], s.epoch))
    requires !p.ResettingTail? && !s.warps[w].ResettingTail?
    ensures var s' := s.(warps := s.warps[w := p]); Settled(s') == Settled(s) && Counted(c, s')
  {
    var s' := s.(warps := s.warps[w := p]);
    assert forall v | 0 <= v < |s.warps| && v != w :: s'.warps[v] == s.warps[v];
    var done := Done(c, s.todo);
    SumOrder(DoneInTime(done, s.warps, s.epoch), DoneInTime(done, s'.warps, s.epoch));
  }

  lemma RewindCounts(c: Config, s: State, w: nat)
    requires Shape(c, s) && LeaderInv(c, s) && HeadInv(c, s) && Counted(c, s) && Enabled(c, s, WarpStep(w))
    requires s.warps[w].ResettingHead? || s.warps[w].ResettingTail?
    ensures Counted(c, ApplyWarp(c, s, w))
  {
    OthersUntouched(c, s, w);
    if s.warps[w].ResettingHead? {
      HeadRewound(c, s, w);
    } else {
      TailRewound(c, s, w);
    }
  }

  lemma HeadRewound(c: Config, s: State, w: nat)
    requires Shape(c, s) && Counted(c, s) && Enabled(c, s, WarpStep(w)) && s.warps[w].ResettingHead? && s.head == c.size
    requires forall v | 0 <= v < |s.warps| && v != w :: !s.warps[v].Leads()
    ensures Counted(c, ApplyWarp(c, s, w))
  {
    assert Settled(s);
    assert ApplyWarp(c, s, w).warps[w].ResettingTail?;
  }

  lemma TailRewound(c: Config, s: State, w: nat)
    requires Shape(c, s) && Counted(c, s) && Enabled(c, s, WarpStep(w)) && s.warps[w].ResettingTail? && s.head == 0
    requires forall v | 0 <= v < |s.warps| && v != w :: !s.warps[v].Leads()
    ensures Counted(c, ApplyWarp(c, s, w))
  {
    assert !Settled(s) && Settled(ApplyWarp(c, s, w));
  }

  lemma CountedStep(c: Config, s: State, a: Action)
    requires ProtocolInv(c, s) && Counted(c, s) && Enabled(c, s, a)
    ensures Counted(c, Apply(c, s, a))
  {
    if a.WarpStep? {
      var w := a.w;
      if s.warps[w].Written? {
        assert w in BusyWarps(s);
        assert Settled(s);
        PushCounts(c, s, w);
      } else if s.warps[w].ResettingHead? || s.warps[w].ResettingTail? {
        RewindCounts(c, s, w);
      } else {
        var s' := ApplyWarp(c, s, w);
        OtherCounts(c, s, w, s'.warps[w]);
        SameCounts(c, s.(warps := s'.warps), s');
      }
    } else {
      SameCounts(c, s, ApplyConsumer(c, s));
    }
  }

  lemma SameCounts(c: Config, s: State, s': State)
    requires Counted(c, s) && s'.warps == s.warps && s'.todo == s.todo && s'.epoch == s.epoch && s'.head == s.head
    ensures Counted(c, s')
  {
  }

  lemma {:induction false} CountedRun(c: Config, s: State, actions: seq<Action>, s': State)
    requires ProtocolInv(c, s) && Counted(c, s) && Runs(c, s, actions, s')
    ensures Counted(c, s')
    decreases |actions|
  {
    if actions != [] {
      ProtocolStep(c, s, actions[0]);
      CountedStep(c, s, actions[0]);
      CountedRun(c, Apply(c, s, actions[0]), actions[1..], s');
    }
  }

  /** In every reachable state the records pushed are those of the full epochs and of the current one. */
  lemma ReachableCounted(c: Config, s: State)
    requires Reachable(c, s)
    ensures ProtocolInv(c, s) && Counted(c, s)
  {
    var s0: State, actions: seq<Action> :| Initial(c, s0) && Runs(c, s0, actions, s);
    ProtocolInitial(c, s0);
    ProtocolRun(c, s0, actions, s);
    SumZero(Done(c, s0.todo));
    CountedRun(c, s0, actions, s);
  }

  /** A stranded state shows how the launch stopped short. */
  lemma StrandedStopsShort(c: Config, s: State) returns (d: seq<nat>)
    requires Reachable(c, s) && Stranded(c, s)
    ensures StopsShort(Lengths(c), c.size, d)
  {
    ReachableCounted(c, s);
    ProgressExact(c, s);
    assert Settled(s);
    assert BusyWarps(s) == {};
    StrandedCounts(c, s);
    d := Done(c, s.todo);
  }

  lemma StrandedCounts(c: Config, s: State)
    requires Shape(c, s) && ThreadsInv(c, s) && Counted(c, s) && Settled(s) && s.head == c.size && Stranded(c, s)
    requires forall w | 0 <= w < |s.warps| && s.warps[w].Waiting? :: s.warps[w].epoch < s.epoch
    ensures StopsShort(Lengths(c), c.size, Done(c, s.todo))
  {
    var done, lens := Done(c, s.todo), Lengths(c);
    var w :| 0 <= w < |s.warps| && !s.warps[w].Exited?;
    assert s.todo[w] != [];
    assert done[w] < lens[w];
    assert Fills(s.epoch + 1, c.size, Sum(done));
    forall v | 0 <= v < |done| ensures Late(s.warps[v], s.epoch) <==> done[v] != lens[v] {
      assert s.warps[v].Exited? || s.warps[v].Waiting?;
    }
    assert DoneInTime(done, s.warps, s.epoch) == Finishers(lens, done);
  }
}
