/** The records that instrumented warps hand to the analysis (include/gpu-patch.h). */
module Records {

  const WARP_SIZE := 32

  /** One warp-level access: the lanes that took part, their addresses and the access width. */
  datatype AddressRecord = AddressRecord(pc: nat, flags: nat, active: seq<bool>, size: nat, address: seq<nat>)
}

/**
 * The bounded buffer between the instrumented warps and the analysis, as a transition system with
 * one step per atomic access. A warp draws a slot, stores its record and advances `head`; the warp
 * that draws index `size` leads: it waits for the writers, raises the consumer's flag, waits for it
 * to fall, and rewinds `head` and `tail`. Warps that draw a larger index spin until `tail` is small.
 */
module RecordQueue {
  import opened Common
  import opened Records

  /** Where a warp stands in `gpu_queue_get` and `gpu_queue_push`. */
  datatype Warp =
    | Ready                  // about to draw a slot, or to leave when nothing is left to record
    | Writing(slot: nat)     // owns the slot, record not stored yet
    | Written(slot: nat)     // record stored, head not advanced yet
    | Draining               // leader: spins until head reaches size
    | Signalling             // leader: about to raise the flag
    | Awaiting               // leader: spins until the flag falls
    | ResettingHead          // leader: about to rewind head
    | ResettingTail          // leader: about to rewind tail
    | Waiting(epoch: nat)    // drew an index beyond size; spins until tail is below size
    | Exited
  {
    predicate Busy() { Writing? || Written? }

    predicate Leads() { Draining? || Signalling? || Awaiting? || ResettingHead? || ResettingTail? }
  }

  /** Where the consumer stands in its polling loop and its compactions. */
  datatype Consumer =
    | PollFlag | PollThreads | Check
    | Read(next: nat) | Clear
    | LastRead(next: nat) | Finished

  /** `onGpu` selects which flag leader and consumer use: `analysis` or `full`. */
  datatype Config = Config(size: nat, onGpu: bool, lanes: seq<nat>, program: seq<seq<AddressRecord>>)
  {
    predicate Valid() {
      1 <= size && |lanes| == |program| && forall w | 0 <= w < |lanes| :: 1 <= lanes[w]
    }
  }

  /**
   * The shared buffer, the warps with what each has left to record, and the consumer. The last four
   * fields are history: completed rewinds, stored but undelivered slots, and the records pushed and
   * delivered so far.
   */
  datatype State = State(
    head: nat, tail: nat, full: bool, analysis: bool, numThreads: nat,
    records: seq<AddressRecord>,
    warps: seq<Warp>, todo: seq<seq<AddressRecord>>, consumer: Consumer,
    epoch: nat, pending: map<nat, AddressRecord>,
    pushed: multiset<AddressRecord>, delivered: multiset<AddressRecord>)

  datatype Action = WarpStep(w: nat) | ConsumerStep

  function Flag(c: Config, s: State): bool { if c.onGpu then s.analysis else s.full }

  function SetFlag(c: Config, s: State, b: bool): State {
    if c.onGpu then s.(analysis := b) else s.(full := b)
  }

  /** The threads that have not left yet; the host launches with this value in `num_threads`. */
  function Live(lanes: seq<nat>, warps: seq<Warp>): nat
    requires |lanes| == |warps|
  {
    if |warps| == 0 then 0
    else Live(lanes[1..], warps[1..]) + if warps[0].Exited? then 0 else lanes[0]
  }

  predicate Initial(c: Config, s: State) {
    && c.Valid()
    && s.head == 0 && s.tail == 0 && !s.full && !s.analysis
    && |s.records| == c.size
    && s.warps == seq(|c.lanes|, i => Ready)
    && s.todo == c.program
    && s.numThreads == Live(c.lanes, s.warps)
    && s.consumer == PollFlag
    && s.epoch == 0 && s.pending == map[] && s.pushed == multiset{} && s.delivered == multiset{}
  }

  /** A spin loop is enabled once its condition lets it leave; stray accesses are never enabled. */
  predicate Enabled(c: Config, s: State, a: Action) {
    match a
    case WarpStep(w) =>
      && w < |s.warps| && |s.todo| == |s.warps| == |c.lanes|
      && (match s.warps[w]
          case Ready => s.todo[w] == [] ==> c.lanes[w] <= s.numThreads
          case Writing(k) => k < |s.records| && s.todo[w] != []
          case Written(k) => k < |s.records| && s.todo[w] != []
          case Draining => c.size <= s.head
          case Signalling => true
          case Awaiting => !Flag(c, s)
          case ResettingHead => true
          case ResettingTail => true
          case Waiting(_) => s.tail < c.size
          case Exited => false)
    case ConsumerStep =>
      match s.consumer
      case Read(i) => i < s.head ==> i < |s.records|
      case LastRead(i) => i < s.head ==> i < |s.records|
      case Finished => false
      case _ => true
  }

  function Apply(c: Config, s: State, a: Action): State
    requires Enabled(c, s, a)
  {
    match a
    case WarpStep(w) => ApplyWarp(c, s, w)
    case ConsumerStep => ApplyConsumer(c, s)
  }

  function ApplyWarp(c: Config, s: State, w: nat): State
    requires Enabled(c, s, WarpStep(w))
  {
    match s.warps[w]
    case Ready =>
      if s.todo[w] == [] then
        s.(warps := s.warps[w := Exited], numThreads := s.numThreads - c.lanes[w])
      else
        var drawn := if s.tail < c.size then Writing(s.tail)
                     else if s.tail == c.size then Draining
                     else Waiting(s.epoch);
        s.(warps := s.warps[w := drawn], tail := s.tail + 1)
    case Writing(k) =>
      s.(warps := s.warps[w := Written(k)], records := s.records[k := s.todo[w][0]])
    case Written(k) =>
      s.(warps := s.warps[w := Ready], head := s.head + 1, todo := s.todo[w := s.todo[w][1..]],
         pending := s.pending[k := s.records[k]], pushed := s.pushed + multiset{s.todo[w][0]})
    case Draining => s.(warps := s.warps[w := Signalling])
    case Signalling => SetFlag(c, s.(warps := s.warps[w := Awaiting]), true)
    case Awaiting => s.(warps := s.warps[w := ResettingHead])
    case ResettingHead => s.(warps := s.warps[w := ResettingTail], head := 0)
    case ResettingTail => s.(warps := s.warps[w := Ready], tail := 0, epoch := s.epoch + 1)
    case Waiting(_) => s.(warps := s.warps[w := Ready])
  }

  function Deliver(s: State, i: nat): State
    requires i < |s.records|
  {
    s.(delivered := s.delivered + multiset{s.records[i]}, pending := s.pending - {i})
  }

  function ApplyConsumer(c: Config, s: State): State
    requires Enabled(c, s, ConsumerStep)
  {
    match s.consumer
    case PollFlag => s.(consumer := if Flag(c, s) then Check else PollThreads)
    case PollThreads => s.(consumer := if s.numThreads == 0 then Check else PollFlag)
    case Check => s.(consumer := if s.numThreads == 0 then LastRead(0) else Read(0))
    case Read(i) => if i < s.head then Deliver(s, i).(consumer := Read(i + 1)) else s.(consumer := Clear)
    case Clear => SetFlag(c, s, false).(consumer := PollFlag)
    case LastRead(i) =>
      if i < s.head then Deliver(s, i).(consumer := LastRead(i + 1)) else s.(consumer := Finished)
  }

  /** `s'` follows from `s` by the given actions, each enabled when taken. */
  predicate Runs(c: Config, s: State, actions: seq<Action>, s': State)
    decreases |actions|
  {
    if actions == [] then s' == s
    else Enabled(c, s, actions[0]) && Runs(c, Apply(c, s, actions[0]), actions[1..], s')
  }

  ghost predicate Reachable(c: Config, s: State) {
    exists s0: State, actions: seq<Action> :: Initial(c, s0) && Runs(c, s0, actions, s)
  }

  lemma {:induction false} RunsAppend(c: Config, s: State, actions: seq<Action>, s': State, a: Action)
    requires Runs(c, s, actions, s') && Enabled(c, s', a)
    ensures Runs(c, s, actions + [a], Apply(c, s', a))
    decreases |actions|
  {
    if actions == [] {
      assert [a][1..] == [];
    } else {
      RunsAppend(c, Apply(c, s, actions[0]), actions[1..], s', a);
      assert (actions + [a])[1..] == actions[1..] + [a];
    }
  }

  lemma ReachableStep(c: Config, s: State, a: Action)
    requires Reachable(c, s) && Enabled(c, s, a)
    ensures Reachable(c, Apply(c, s, a))
  {
    var s0: State, actions: seq<Action> :| Initial(c, s0) && Runs(c, s0, actions, s);
    RunsAppend(c, s0, actions, s, a);
  }

  // ---------------------------------------------------------------- the invariant

  ghost function BusyWarps(s: State): set<nat> { set w: nat | w < |s.warps| && s.warps[w].Busy() }

  /** The warps that drew an index at or beyond `size` since the last rewind. */
  ghost function Overflowing(warps: seq<Warp>, epoch: nat): set<nat> {
    set w: nat | w < |warps| && (warps[w].Leads() || warps[w] == Waiting(epoch))
  }

  ghost predicate Leader(warps: seq<Warp>, w: nat) { w < |warps| && warps[w].Leads() }

  predicate Shape(c: Config, s: State) {
    && c.Valid()
    && |s.warps| == |s.todo| == |c.lanes|
    && |s.records| == c.size
  }

  /** Slots under construction are distinct and below `bound`. */
  ghost predicate DistinctSlots(warps: seq<Warp>, bound: nat) {
    && (forall w | 0 <= w < |warps| && warps[w].Busy() :: warps[w].slot < bound)
    && (forall v, w | 0 <= v < |warps| && 0 <= w < |warps| && warps[v].Busy() && warps[w].Busy() ::
          warps[v].slot == warps[w].slot ==> v == w)
  }

  ghost predicate SlotsInv(c: Config, s: State) { DistinctSlots(s.warps, Min(s.tail, c.size)) }

  /** A leader exists exactly when the buffer overflowed, and there is only one. */
  ghost predicate Led(warps: seq<Warp>, epoch: nat, tail: nat, size: nat) {
    && (tail > size <==> exists w: nat :: Leader(warps, w))
    && (forall v: nat, w: nat | Leader(warps, v) && Leader(warps, w) :: v == w)
    && (forall w | 0 <= w < |warps| && warps[w].Waiting? ::
          warps[w].epoch <= epoch && (warps[w].epoch == epoch ==> tail > size))
    && |Overflowing(warps, epoch)| == tail - Min(tail, size)
  }

  ghost predicate LeaderInv(c: Config, s: State) { Led(s.warps, s.epoch, s.tail, c.size) }

  /** No leader has rewound head without having rewound tail. */
  predicate Settled(s: State) { forall w | 0 <= w < |s.warps| :: !s.warps[w].ResettingTail? }

  /** Head counts the finished slots, except in the window where head is rewound and tail is not. */
  ghost predicate HeadInv(c: Config, s: State) {
    && (Settled(s) ==> s.head + |BusyWarps(s)| == Min(s.tail, c.size))
    && (forall w | 0 <= w < |s.warps| && s.warps[w].ResettingTail? :: s.head == 0 && BusyWarps(s) == {})
    && (forall w | 0 <= w < |s.warps| ::
          s.warps[w].Signalling? || s.warps[w].Awaiting? || s.warps[w].ResettingHead? ==> s.head == c.size)
  }

  /** The flag is up only while the leader waits for it; the other mode's flag is never touched. */
  ghost predicate FlagInv(c: Config, s: State) {
    && (if c.onGpu then !s.full else !s.analysis)
    && (Flag(c, s) ==> exists w: nat :: w < |s.warps| && s.warps[w].Awaiting?)
  }

  /** `num_threads` counts the threads of the warps that have not left, and those that left are done. */
  ghost predicate ThreadsInv(c: Config, s: State)
    requires Shape(c, s)
  {
    && s.numThreads == Live(c.lanes, s.warps)
    && (forall w | 0 <= w < |s.warps| :: s.warps[w].Exited? ==> s.todo[w] == [])
    && (forall w | 0 <= w < |s.warps| :: !s.warps[w].Exited? && !s.warps[w].Ready? ==> s.todo[w] != [])
  }

  ghost predicate ConsumerInv(c: Config, s: State) {
    match s.consumer
    case PollFlag => true
    case PollThreads => true
    case Check => Flag(c, s) || s.numThreads == 0
    case Read(i) => Flag(c, s) && i <= c.size
    case Clear => Flag(c, s)
    case LastRead(i) => s.numThreads == 0 && i <= s.head
    case Finished => s.numThreads == 0
  }

  ghost predicate ProtocolInv(c: Config, s: State) {
    && Shape(c, s) && SlotsInv(c, s) && LeaderInv(c, s) && HeadInv(c, s)
    && FlagInv(c, s) && ThreadsInv(c, s) && ConsumerInv(c, s)
  }

  // ---------------------------------------------------------------- num_threads

  lemma {:induction false} LiveUpdate(lanes: seq<nat>, warps: seq<Warp>, w: nat, p: Warp)
    requires |lanes| == |warps| && w < |warps|
    ensures Live(lanes, warps[w := p]) + (if warps[w].Exited? then 0 else lanes[w])
         == Live(lanes, warps) + (if p.Exited? then 0 else lanes[w])
  {
    if w == 0 {
      assert warps[w := p][1..] == warps[1..];
    } else {
      assert warps[w := p][1..] == warps[1..][w - 1 := p];
      LiveUpdate(lanes[1..], warps[1..], w - 1, p);
    }
  }

  lemma {:induction false} LiveCovers(lanes: seq<nat>, warps: seq<Warp>, w: nat)
    requires |lanes| == |warps| && w < |warps| && !warps[w].Exited?
    ensures lanes[w] <= Live(lanes, warps)
  {
    if w != 0 { LiveCovers(lanes[1..], warps[1..], w - 1); }
  }

  lemma {:induction false} LiveZero(lanes: seq<nat>, warps: seq<Warp>)
    requires |lanes| == |warps| && forall w | 0 <= w < |warps| :: warps[w].Exited?
    ensures Live(lanes, warps) == 0
  {
    if |warps| != 0 { LiveZero(lanes[1..], warps[1..]); }
  }

  /** `num_threads` is zero exactly when every warp has left. */
  lemma ThreadsGone(c: Config, s: State)
    requires Shape(c, s) && ThreadsInv(c, s)
    ensures s.numThreads == 0 <==> forall w | 0 <= w < |s.warps| :: s.warps[w].Exited?
  {
    if forall w | 0 <= w < |s.warps| :: s.warps[w].Exited? {
      LiveZero(c.lanes, s.warps);
    } else {
      var w: nat :| w < |s.warps| && !s.warps[w].Exited?;
      LiveCovers(c.lanes, s.warps, w);
    }
  }

  // ---------------------------------------------------------------- preservation

  lemma BusyUpdate(s: State, s': State, w: nat)
    requires w < |s.warps| && |s'.warps| == |s.warps| && s'.warps == s.warps[w := s'.warps[w]]
    ensures s'.warps[w].Busy() == s.warps[w].Busy() ==> BusyWarps(s') == BusyWarps(s)
    ensures s'.warps[w].Busy() && !s.warps[w].Busy() ==> |BusyWarps(s')| == |BusyWarps(s)| + 1
    ensures !s'.warps[w].Busy() && s.warps[w].Busy() ==> |BusyWarps(s')| == |BusyWarps(s)| - 1
  {
    if s'.warps[w].Busy() && !s.warps[w].Busy() {
      assert BusyWarps(s') == BusyWarps(s) + {w};
    } else if !s'.warps[w].Busy() && s.warps[w].Busy() {
      assert BusyWarps(s') == BusyWarps(s) - {w};
    } else {
      assert BusyWarps(s') == BusyWarps(s);
    }
  }

  lemma DistinctUpdate(warps: seq<Warp>, bound: nat, w: nat, p: Warp, bound': nat)
    requires DistinctSlots(warps, bound) && w < |warps| && bound <= bound'
    requires p.Busy() ==> p.slot < bound' && (p.slot >= bound || (warps[w].Busy() && warps[w].slot == p.slot))
    ensures DistinctSlots(warps[w := p], bound')
  {
    var warps' := warps[w := p];
    assert forall v | 0 <= v < |warps| && v != w :: warps'[v] == warps[v];
  }

  lemma SlotsKept(c: Config, s: State, w: nat)
    requires Shape(c, s) && SlotsInv(c, s) && HeadInv(c, s) && Enabled(c, s, WarpStep(w))
    ensures SlotsInv(c, ApplyWarp(c, s, w))
  {
    var s' := ApplyWarp(c, s, w);
    if s.warps[w].ResettingTail? {
      forall v | 0 <= v < |s'.warps| ensures !s'.warps[v].Busy() {
        assert v in BusyWarps(s) <==> s.warps[v].Busy();
      }
    } else {
      DistinctUpdate(s.warps, Min(s.tail, c.size), w, s'.warps[w], Min(s'.tail, c.size));
    }
  }

  lemma LeadersRest(warps: seq<Warp>, epoch: nat, tail: nat, size: nat, w: nat, p: Warp, tail': nat)
    requires Led(warps, epoch, tail, size) && w < |warps|
    requires p.Leads() == warps[w].Leads() && !p.Waiting? && (warps[w].Waiting? ==> tail < size)
    requires tail' == tail || tail < tail' <= size
    ensures Led(warps[w := p], epoch, tail', size)
  {
    var warps' := warps[w := p];
    assert forall v: nat | v < |warps| && v != w :: warps'[v] == warps[v];
    assert forall v: nat :: Leader(warps', v) == Leader(warps, v);
    assert Overflowing(warps', epoch) == Overflowing(warps, epoch);
  }

  lemma LeadersDraw(warps: seq<Warp>, epoch: nat, tail: nat, size: nat, w: nat, p: Warp)
    requires Led(warps, epoch, tail, size) && w < |warps| && size <= tail && warps[w] == Ready
    requires p == if tail == size then Draining else Waiting(epoch)
    ensures Led(warps[w := p], epoch, tail + 1, size)
  {
    var warps' := warps[w := p];
    assert forall v: nat | v < |warps| && v != w :: warps'[v] == warps[v];
    assert forall v: nat :: v != w ==> Leader(warps', v) == Leader(warps, v);
    if tail == size {
      assert Leader(warps', w);
    } else {
      var l: nat :| Leader(warps, l);
      assert Leader(warps', l) && l != w;
    }
    assert Overflowing(warps', epoch) == Overflowing(warps, epoch) + {w};
  }

  lemma LeadersRewind(warps: seq<Warp>, epoch: nat, tail: nat, size: nat, w: nat)
    requires Led(warps, epoch, tail, size) && w < |warps| && warps[w].ResettingTail?
    ensures Led(warps[w := Ready], epoch + 1, 0, size)
  {
    var warps' := warps[w := Ready];
    assert Leader(warps, w);
    forall v: nat | v < |warps| ensures !warps'[v].Leads() && warps'[v] != Waiting(epoch + 1) {
      if v != w { assert warps'[v] == warps[v] && !Leader(warps, v); }
    }
    assert Overflowing(warps', epoch + 1) == {};
  }

  lemma LeaderDraws(c: Config, s: State, w: nat)
    requires Shape(c, s) && LeaderInv(c, s) && Enabled(c, s, WarpStep(w))
    requires s.warps[w].Ready? && s.todo[w] != [] && s.tail >= c.size
    ensures LeaderInv(c, ApplyWarp(c, s, w))
  {
    LeadersDraw(s.warps, s.epoch, s.tail, c.size, w, ApplyWarp(c, s, w).warps[w]);
  }

  lemma LeaderKept(c: Config, s: State, w: nat)
    requires Shape(c, s) && LeaderInv(c, s) && Enabled(c, s, WarpStep(w))
    ensures LeaderInv(c, ApplyWarp(c, s, w))
  {
    if s.warps[w].ResettingTail? {
      LeadersRewind(s.warps, s.epoch, s.tail, c.size, w);
    } else if s.warps[w].Ready? && s.todo[w] != [] && s.tail >= c.size {
      LeaderDraws(c, s, w);
    } else {
      var s' := ApplyWarp(c, s, w);
      LeadersRest(s.warps, s.epoch, s.tail, c.size, w, s'.warps[w], s'.tail);
    }
  }

  /** Stepping warp `w`, while it leads or not, says this about the others. */
  lemma OthersUntouched(c: Config, s: State, w: nat)
    requires Shape(c, s) && LeaderInv(c, s) && Enabled(c, s, WarpStep(w))
    ensures forall v | 0 <= v < |s.warps| && v != w :: ApplyWarp(c, s, w).warps[v] == s.warps[v]
    ensures s.warps[w].Leads() ==> s.tail > c.size && forall v | 0 <= v < |s.warps| && v != w :: !s.warps[v].Leads()
    ensures forall v | 0 <= v < |s.warps| && s.warps[v].Leads() :: s.tail > c.size
  {
    assert forall v: nat | v < |s.warps| && s.warps[v].Leads() :: Leader(s.warps, v);
  }

  lemma HeadKeptWriter(c: Config, s: State, w: nat)
    requires Shape(c, s) && LeaderInv(c, s) && HeadInv(c, s) && Enabled(c, s, WarpStep(w)) && s.warps[w].Busy()
    ensures HeadInv(c, ApplyWarp(c, s, w))
  {
    var s' := ApplyWarp(c, s, w);
    BusyUpdate(s, s', w);
    OthersUntouched(c, s, w);
    assert w in BusyWarps(s);
    assert Settled(s') ==> Settled(s);
  }

  lemma HeadKeptLeader(c: Config, s: State, w: nat)
    requires Shape(c, s) && LeaderInv(c, s) && HeadInv(c, s) && Enabled(c, s, WarpStep(w)) && s.warps[w].Leads()
    ensures HeadInv(c, ApplyWarp(c, s, w))
  {
    BusyUpdate(s, ApplyWarp(c, s, w), w);
    OthersUntouched(c, s, w);
    assert s.warps[w].ResettingHead? ==> Settled(s);
  }

  lemma HeadKept(c: Config, s: State, w: nat)
    requires Shape(c, s) && LeaderInv(c, s) && HeadInv(c, s) && Enabled(c, s, WarpStep(w))
    ensures HeadInv(c, ApplyWarp(c, s, w))
  {
    if s.warps[w].Busy() {
      HeadKeptWriter(c, s, w);
    } else if s.warps[w].Leads() {
      HeadKeptLeader(c, s, w);
    } else {
      var s' := ApplyWarp(c, s, w);
      BusyUpdate(s, s', w);
      OthersUntouched(c, s, w);
      assert Settled(s') ==> Settled(s);
    }
  }

  lemma FlagKept(c: Config, s: State, w: nat)
    requires Shape(c, s) && FlagInv(c, s) && Enabled(c, s, WarpStep(w))
    ensures FlagInv(c, ApplyWarp(c, s, w))
  {
    var s' := ApplyWarp(c, s, w);
    if Flag(c, s') {
      if Flag(c, s) {
        var v: nat :| v < |s.warps| && s.warps[v].Awaiting?;
        assert s'.warps[v].Awaiting?;
      } else {
        assert s'.warps[w].Awaiting?;
      }
    }
  }

  lemma ThreadsKept(c: Config, s: State, w: nat)
    requires Shape(c, s) && ThreadsInv(c, s) && Enabled(c, s, WarpStep(w))
    ensures Shape(c, ApplyWarp(c, s, w)) && ThreadsInv(c, ApplyWarp(c, s, w))
  {
    var s' := ApplyWarp(c, s, w);
    ThreadsUpdate(c, s, w, s'.warps[w], s'.todo[w]);
    assert s'.todo == s.todo[w := s'.todo[w]];
  }

  /** `num_threads` and the exits after warp `w` changes to `p` with `left` still to record. */
  lemma ThreadsUpdate(c: Config, s: State, w: nat, p: Warp, left: seq<AddressRecord>)
    requires Shape(c, s) && ThreadsInv(c, s) && w < |s.warps| && !s.warps[w].Exited?
    requires if p.Exited? then left == [] else p.Ready? || left != []
    ensures var s' := s.(warps := s.warps[w := p], todo := s.todo[w := left]);
            ThreadsInv(c, s'.(numThreads := Live(c.lanes, s'.warps)))
    ensures Live(c.lanes, s.warps[w := p]) == s.numThreads - if p.Exited? then c.lanes[w] else 0
  {
    LiveUpdate(c.lanes, s.warps, w, p);
  }

  lemma ConsumerKept(c: Config, s: State, w: nat)
    requires ProtocolInv(c, s) && Enabled(c, s, WarpStep(w))
    ensures ConsumerInv(c, ApplyWarp(c, s, w))
  {
    ThreadsGone(c, s);
  }

  /** A consumer step leaves the warps alone, and with them all that depends on warps, head and tail. */
  lemma ConsumerStepKept(c: Config, s: State)
    requires ProtocolInv(c, s) && Enabled(c, s, ConsumerStep)
    ensures ProtocolInv(c, ApplyConsumer(c, s))
  {
    var s' := ApplyConsumer(c, s);
    WarpsUntouched(c, s, s');
    if s.consumer.Read? {
      var v: nat :| v < |s.warps| && s.warps[v].Awaiting?;
      assert s.head == c.size;
    }
  }

  lemma WarpsUntouched(c: Config, s: State, s': State)
    requires s' == s.(full := s'.full, analysis := s'.analysis, consumer := s'.consumer,
                      pending := s'.pending, delivered := s'.delivered)
    ensures SlotsInv(c, s) ==> SlotsInv(c, s')
    ensures LeaderInv(c, s) ==> LeaderInv(c, s')
    ensures HeadInv(c, s) ==> HeadInv(c, s')
  {
    assert BusyWarps(s') == BusyWarps(s);
  }

  /** Every step keeps the protocol invariant, for any number of warps. */
  lemma ProtocolStep(c: Config, s: State, a: Action)
    requires ProtocolInv(c, s) && Enabled(c, s, a)
    ensures ProtocolInv(c, Apply(c, s, a))
  {
    match a
    case WarpStep(w) =>
      SlotsKept(c, s, w);
      LeaderKept(c, s, w);
      HeadKept(c, s, w);
      FlagKept(c, s, w);
      ThreadsKept(c, s, w);
      ConsumerKept(c, s, w);
    case ConsumerStep =>
      ConsumerStepKept(c, s);
  }

  lemma ProtocolInitial(c: Config, s: State)
    requires Initial(c, s)
    ensures ProtocolInv(c, s)
  {
    assert Overflowing(s.warps, 0) == {};
    assert BusyWarps(s) == {};
  }

  lemma {:induction false} ProtocolRun(c: Config, s: State, actions: seq<Action>, s': State)
    requires ProtocolInv(c, s) && Runs(c, s, actions, s')
    ensures ProtocolInv(c, s')
    decreases |actions|
  {
    if actions != [] {
      ProtocolStep(c, s, actions[0]);
      ProtocolRun(c, Apply(c, s, actions[0]), actions[1..], s');
    }
  }

  /**
   * What holds in every reachable state: the slots being written are distinct and inside the
   * buffer; outside the rewind window head plus writers is min(tail, size); a leader exists exactly
   * when tail exceeds size, and is unique; while either flag is up the buffer is full, nobody
   * writes and threads remain; and tail exceeds size by at most the number of warps, so the 32-bit
   * counter cannot wrap while size plus the warps fit it.
   */
  lemma QueueSafety(c: Config, s: State)
    requires Reachable(c, s)
    ensures ProtocolInv(c, s)
    ensures forall w | 0 <= w < |s.warps| && s.warps[w].Busy() :: s.warps[w].slot < c.size
    ensures forall v, w | 0 <= v < w < |s.warps| && s.warps[v].Busy() && s.warps[w].Busy() ::
              s.warps[v].slot != s.warps[w].slot
    ensures (forall w | 0 <= w < |s.warps| :: !s.warps[w].ResettingTail?) ==>
              s.head + |BusyWarps(s)| == Min(s.tail, c.size)
    ensures s.tail > c.size <==> exists w: nat :: Leader(s.warps, w)
    ensures forall v: nat, w: nat | Leader(s.warps, v) && Leader(s.warps, w) :: v == w
    ensures s.full || s.analysis ==> s.head == c.size && BusyWarps(s) == {} && s.numThreads > 0
    ensures s.tail <= c.size + |c.lanes|
  {
    var s0: State, actions: seq<Action> :| Initial(c, s0) && Runs(c, s0, actions, s);
    ProtocolInitial(c, s0);
    ProtocolRun(c, s0, actions, s);
    OverflowBound(s);
    if s.full || s.analysis {
      var v: nat :| v < |s.warps| && s.warps[v].Awaiting?;
      assert Leader(s.warps, v);
      assert forall w: nat | w < |s.warps| :: s.warps[w].ResettingTail? ==> Leader(s.warps, w);
      ThreadsGone(c, s);
    }
  }

  /** The first `n` warp indices. */
  function Indices(n: nat): (r: set<nat>)
    ensures forall w: nat :: w in r <==> w < n
  {
    if n == 0 then {} else Indices(n - 1) + {n - 1}
  }

  lemma OverflowBound(s: State)
    ensures |Overflowing(s.warps, s.epoch)| <= |s.warps|
  {
    IndicesCount(|s.warps|);
    SubsetCount(Overflowing(s.warps, s.epoch), Indices(|s.warps|));
  }

  lemma {:induction false} IndicesCount(n: nat)
    ensures |Indices(n)| == n
  {
    if n != 0 { IndicesCount(n - 1); }
  }

  lemma {:induction false} SubsetCount(a: set<nat>, b: set<nat>)
    requires a <= b
    ensures |a| <= |b|
  {
    if a != {} {
      var x :| x in a;
      SubsetCount(a - {x}, b - {x});
    }
  }
}
