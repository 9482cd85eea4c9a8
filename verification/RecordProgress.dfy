/**
 * Progress of the record queue. Apart from idle polling, every run is finite; and a run can only
 * stop when everything is delivered or when some late warp is stranded: it drew an index beyond the
 * buffer in an earlier epoch, was slow to notice the rewind, and now sees `tail == size` with nobody
 * left to become leader.
 */
module RecordProgress {
  import opened Common
  import opened Records
  import opened RecordQueue
  import opened RecordDelivery

  /** The consumer spins: no flag, and threads are still running. */
  predicate IdlePoll(c: Config, s: State) {
    (s.consumer.PollFlag? || s.consumer.PollThreads?) && !Flag(c, s) && s.numThreads != 0
  }

  /** A step that is not a turn of a spin loop. */
  predicate Advances(c: Config, s: State, a: Action) {
    Enabled(c, s, a) && (a.ConsumerStep? ==> !IdlePoll(c, s))
  }

  /** Only warps waiting on a full, leaderless buffer are left. */
  predicate Stranded(c: Config, s: State) {
    && s.tail == c.size
    && (exists w :: 0 <= w < |s.warps| && !s.warps[w].Exited?)
    && (forall w | 0 <= w < |s.warps| :: s.warps[w].Exited? || s.warps[w].Waiting?)
  }

  // ---------------------------------------------------------------- who can move

  lemma LeaderMoves(c: Config, s: State, w: nat)
    requires ProtocolInv(c, s) && w < |s.warps| && s.warps[w].Leads()
    requires BusyWarps(s) == {}
    ensures Advances(c, s, WarpStep(w)) || Advances(c, s, ConsumerStep)
  {
    assert Leader(s.warps, w);
    if s.warps[w].Draining? {
      forall v | 0 <= v < |s.warps| ensures !s.warps[v].ResettingTail? {
        assert s.warps[v].Leads() ==> Leader(s.warps, v);
      }
      assert s.head == c.size;
      assert Advances(c, s, WarpStep(w));
    } else if s.warps[w].Awaiting? && Flag(c, s) {
      ThreadsGone(c, s);
      assert Advances(c, s, ConsumerStep);
    } else {
      assert Advances(c, s, WarpStep(w));
    }
  }

  lemma SomethingMoves(c: Config, s: State)
    requires ProtocolInv(c, s) && !s.consumer.Finished? && !Stranded(c, s)
    ensures exists a :: Advances(c, s, a)
  {
    ThreadsGone(c, s);
    if w: nat :| w < |s.warps| && s.warps[w].Busy() {
      assert Advances(c, s, WarpStep(w));
    } else if w: nat :| w < |s.warps| && s.warps[w].Ready? {
      LiveCovers(c.lanes, s.warps, w);
      assert Advances(c, s, WarpStep(w));
    } else if w: nat :| w < |s.warps| && s.warps[w].Leads() {
      assert BusyWarps(s) == {};
      LeaderMoves(c, s, w);
    } else if s.numThreads == 0 {
      assert forall w: nat :: !Leader(s.warps, w);
      assert Advances(c, s, ConsumerStep);
    } else {
      var w: nat :| w < |s.warps| && !s.warps[w].Exited?;
      assert s.warps[w].Waiting?;
      assert forall v: nat :: !Leader(s.warps, v);
      assert s.tail < c.size;
      assert Advances(c, s, WarpStep(w));
    }
  }

  lemma NothingMoves(c: Config, s: State, a: Action)
    requires ProtocolInv(c, s) && (s.consumer.Finished? || Stranded(c, s))
    ensures !Advances(c, s, a)
  {
    ThreadsGone(c, s);
    if Stranded(c, s) {
      assert forall v: nat :: !Leader(s.warps, v);
      assert !Flag(c, s);
    }
  }

  /**
   * Progress, exactly. A reachable state has an advancing step unless the consumer has finished or
   * the remaining warps are stranded, and those two are never mixed up: a stranded warp drew its
   * index in an earlier epoch. When the consumer has finished, every record was delivered.
   */
  lemma ProgressExact(c: Config, s: State)
    requires Reachable(c, s)
    ensures (exists a :: Advances(c, s, a)) <==> !s.consumer.Finished? && !Stranded(c, s)
    ensures s.consumer.Finished? ==> !Stranded(c, s) && s.delivered == TodoBag(c.program)
    ensures Stranded(c, s) ==> forall w | 0 <= w < |s.warps| && s.warps[w].Waiting? :: s.warps[w].epoch < s.epoch
  {
    QueueSafety(c, s);
    ExactlyOnce(c, s);
    ThreadsGone(c, s);
    if s.consumer.Finished? || Stranded(c, s) {
      forall a ensures !Advances(c, s, a) { NothingMoves(c, s, a); }
    } else {
      SomethingMoves(c, s);
    }
  }

  // ---------------------------------------------------------------- every run ends

  /** Steps a warp can still take before the next rewind; a waiter of an earlier epoch may go again. */
  function Rank(p: Warp, left: nat, epoch: nat): nat {
    10 * left +
    match p
    case Ready => 6
    case Writing(_) => 5
    case Written(_) => 4
    case Draining => 3
    case Signalling => 2
    case Waiting(e) => if e == epoch then 1 else 7
    case Exited => 0
    case _ => 1
  }

  function WarpWork(warps: seq<Warp>, todo: seq<seq<AddressRecord>>, epoch: nat): nat
    requires |warps| == |todo|
  {
    if warps == [] then 0 else Rank(warps[0], |todo[0]|, epoch) + WarpWork(warps[1..], todo[1..], epoch)
  }

  lemma {:induction false} WarpWorkUpdate(warps: seq<Warp>, todo: seq<seq<AddressRecord>>, epoch: nat, w: nat, p: Warp,
                                          t: seq<AddressRecord>)
    requires |warps| == |todo| && w < |warps|
    ensures WarpWork(warps[w := p], todo[w := t], epoch) + Rank(warps[w], |todo[w]|, epoch)
         == WarpWork(warps, todo, epoch) + Rank(p, |t|, epoch)
  {
    if w == 0 {
      assert warps[w := p][1..] == warps[1..] && todo[w := t][1..] == todo[1..];
    } else {
      assert warps[w := p][1..] == warps[1..][w - 1 := p] && todo[w := t][1..] == todo[1..][w - 1 := t];
      WarpWorkUpdate(warps[1..], todo[1..], epoch, w - 1, p, t);
    }
  }

  function Unpushed(todo: seq<seq<AddressRecord>>): nat {
    if todo == [] then 0 else |todo[0]| + Unpushed(todo[1..])
  }

  lemma {:induction false} UnpushedPop(todo: seq<seq<AddressRecord>>, w: nat)
    requires w < |todo| && todo[w] != []
    ensures Unpushed(todo) == Unpushed(todo[w := todo[w][1..]]) + 1
  {
    if w == 0 {
      assert todo[w := todo[w][1..]][1..] == todo[1..];
    } else {
      assert todo[w := todo[w][1..]][1..] == todo[1..][w - 1 := todo[w][1..]];
      UnpushedPop(todo[1..], w - 1);
    }
  }

  /** Steps left until the delivered buffer is rewound; zero while it still holds fresh records. */
  function RewindWork(c: Config, s: State): nat {
    if s.consumer.Clear? || (s.consumer.Read? && s.consumer.next > 0) then 4
    else if exists w :: 0 <= w < |s.warps| && s.warps[w].Awaiting? && !Flag(c, s) then 3
    else if exists w :: 0 <= w < |s.warps| && s.warps[w].ResettingHead? then 2
    else if exists w :: 0 <= w < |s.warps| && s.warps[w].ResettingTail? then 1
    else 0
  }

  function ConsumerWork(c: Config, s: State): nat {
    match s.consumer
    case PollFlag => if Flag(c, s) then 5 else 7
    case PollThreads => 6
    case Check => 4
    case Read(_) => 3
    case LastRead(_) => 3
    case Clear => 2
    case Finished => 0
  }

  datatype Work = Work(undelivered: nat, rewind: nat, warps: nat, consumer: nat)

  predicate Less(a: Work, b: Work) {
    || a.undelivered < b.undelivered
    || (a.undelivered == b.undelivered &&
        (|| a.rewind < b.rewind
         || (a.rewind == b.rewind &&
             (|| a.warps < b.warps
              || (a.warps == b.warps && a.consumer < b.consumer)))))
  }

  function WorkLeft(c: Config, s: State): Work
    requires Shape(c, s)
  {
    Work(Unpushed(s.todo) + |s.pending|, RewindWork(c, s), WarpWork(s.warps, s.todo, s.epoch), ConsumerWork(c, s))
  }

  lemma WriterWorks(c: Config, s: State, w: nat)
    requires Shape(c, s) && Enabled(c, s, WarpStep(w)) && s.warps[w].Busy() && s.warps[w].slot !in s.pending
    ensures Shape(c, ApplyWarp(c, s, w)) && Less(WorkLeft(c, ApplyWarp(c, s, w)), WorkLeft(c, s))
  {
    var s' := ApplyWarp(c, s, w);
    WarpWorkUpdate(s.warps, s.todo, s.epoch, w, s'.warps[w], s'.todo[w]);
    RewindWorkUpdate(c, s, s', w);
    if s.warps[w].Written? {
      UnpushedPop(s.todo, w);
      assert |s'.pending| == |s.pending| + 1;
    } else {
      assert s.todo[w := s.todo[w]] == s.todo;
    }
  }

  /** Who leads is unique, so the rewind work can be read off that warp. */
  lemma LeaderRewind(c: Config, s: State, w: nat)
    requires LeaderInv(c, s) && Leader(s.warps, w)
    requires s.consumer.PollFlag? || s.consumer.PollThreads?
    ensures RewindWork(c, s) == match s.warps[w] case Awaiting => if Flag(c, s) then 0 else 3
                                case ResettingHead => 2 case ResettingTail => 1 case _ => 0
  {
    assert forall v: nat | v < |s.warps| && s.warps[v].Leads() :: Leader(s.warps, v);
  }

  lemma NoLeaderNoRewind(c: Config, s: State)
    requires forall w | 0 <= w < |s.warps| :: !s.warps[w].Leads()
    requires s.consumer.PollFlag? || s.consumer.PollThreads?
    ensures RewindWork(c, s) == 0
  {
  }

  lemma LeaderWorks(c: Config, s: State, w: nat)
    requires Shape(c, s) && LeaderInv(c, s) && Enabled(c, s, WarpStep(w)) && s.warps[w].Leads()
    requires s.consumer.PollFlag? || s.consumer.PollThreads?
    ensures Shape(c, ApplyWarp(c, s, w)) && Less(WorkLeft(c, ApplyWarp(c, s, w)), WorkLeft(c, s))
  {
    var s' := ApplyWarp(c, s, w);
    OthersUntouched(c, s, w);
    LeaderKept(c, s, w);
    assert Leader(s.warps, w);
    LeaderRewind(c, s, w);
    if s.warps[w].ResettingTail? {
      NoLeaderNoRewind(c, s');
    } else {
      assert Leader(s'.warps, w);
      LeaderRewind(c, s', w);
    }
    WarpWorkUpdate(s.warps, s.todo, s.epoch, w, s'.warps[w], s.todo[w]);
    assert s.todo[w := s.todo[w]] == s.todo;
  }

  lemma IdlerWorks(c: Config, s: State, w: nat)
    requires Shape(c, s) && LeaderInv(c, s) && Enabled(c, s, WarpStep(w)) && (s.warps[w].Ready? || s.warps[w].Waiting?)
    ensures Shape(c, ApplyWarp(c, s, w)) && Less(WorkLeft(c, ApplyWarp(c, s, w)), WorkLeft(c, s))
  {
    var s' := ApplyWarp(c, s, w);
    WarpWorkUpdate(s.warps, s.todo, s.epoch, w, s'.warps[w], s.todo[w]);
    assert s.todo[w := s.todo[w]] == s.todo;
    RewindWorkUpdate(c, s, s', w);
  }

  lemma RewindWorkUpdate(c: Config, s: State, s': State, w: nat)
    requires w < |s.warps| == |s'.warps| && s'.warps == s.warps[w := s'.warps[w]]
    requires s'.consumer == s.consumer && Flag(c, s') == Flag(c, s)
    requires !s.warps[w].Leads() && (!s'.warps[w].Leads() || s'.warps[w].Draining?)
    ensures RewindWork(c, s') == RewindWork(c, s)
  {
    assert forall v | 0 <= v < |s.warps| && v != w :: s'.warps[v] == s.warps[v];
  }

  lemma ReadWorks(c: Config, s: State)
    requires Shape(c, s) && Enabled(c, s, ConsumerStep) && (s.consumer.Read? || s.consumer.LastRead?)
    requires s.consumer.next < s.head && s.consumer.next in s.pending
    ensures Shape(c, ApplyConsumer(c, s)) && Less(WorkLeft(c, ApplyConsumer(c, s)), WorkLeft(c, s))
  {
    var s' := ApplyConsumer(c, s);
    assert s.pending.Keys == s'.pending.Keys + {s.consumer.next};
    assert |s'.pending| == |s.pending| - 1;
  }

  lemma PollWorks(c: Config, s: State)
    requires Shape(c, s) && ConsumerInv(c, s) && Advances(c, s, ConsumerStep)
    requires s.consumer.Read? || s.consumer.LastRead? ==> s.consumer.next >= s.head
    requires s.consumer.Read? ==> s.head == c.size
    ensures Shape(c, ApplyConsumer(c, s)) && Less(WorkLeft(c, ApplyConsumer(c, s)), WorkLeft(c, s))
  {
  }

  /** Every advancing step leaves less work. */
  lemma StepWorks(c: Config, s: State, a: Action)
    requires Reachable(c, s) && Advances(c, s, a)
    ensures Shape(c, s) && Shape(c, Apply(c, s, a)) && Less(WorkLeft(c, Apply(c, s, a)), WorkLeft(c, s))
  {
    ReachableDelivery(c, s);
    match a
    case ConsumerStep =>
      ConsumerKeepsKeys(c, s);
      QuietMoments(c, s);
      if (s.consumer.Read? || s.consumer.LastRead?) && s.consumer.next < s.head {
        ReadWorks(c, s);
      } else {
        PollWorks(c, s);
      }
    case WarpStep(w) =>
      RunningMeansPolling(c, s, w);
      if s.warps[w].Busy() {
        assert s.warps[w].slot in BusySlots(s.warps);
        WriterWorks(c, s, w);
      } else if s.warps[w].Leads() {
        LeaderWorks(c, s, w);
      } else {
        IdlerWorks(c, s, w);
      }
  }

  /** Step `k` of the schedule is not an advancing step of the protocol. */
  ghost predicate Halts(c: Config, run: nat -> State, acts: nat -> Action, k: nat) {
    !Advances(c, run(k), acts(k)) || run(k + 1) != Apply(c, run(k), acts(k))
  }

  lemma {:induction false} DescentEnds(c: Config, run: nat -> State, acts: nat -> Action, i: nat, work: Work)
    returns (k: nat)
    requires Reachable(c, run(i)) && Shape(c, run(i)) && work == WorkLeft(c, run(i))
    ensures Halts(c, run, acts, k)
    decreases work.undelivered, work.rewind, work.warps, work.consumer
  {
    k := i;
    if !Halts(c, run, acts, i) {
      ReachableStep(c, run(i), acts(i));
      StepWorks(c, run(i), acts(i));
      k := DescentEnds(c, run, acts, i + 1, WorkLeft(c, run(i + 1)));
    }
  }

  /** No schedule advances forever, so no warp retries or waits forever while others make progress. */
  lemma EveryRunEnds(c: Config, run: nat -> State, acts: nat -> Action)
    requires Reachable(c, run(0))
    ensures exists k: nat :: Halts(c, run, acts, k)
  {
    ReachableDelivery(c, run(0));
    var k := DescentEnds(c, run, acts, 0, WorkLeft(c, run(0)));
  }
}
