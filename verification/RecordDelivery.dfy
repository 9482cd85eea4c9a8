/**
 * Exactly-once delivery through the record queue: over every run, what the consumer's compactions
 * read is what the warps pushed, and leaving the loop at `num_threads == 0` loses nothing.
 */
module RecordDelivery {
  import opened Common
  import opened Records
  import opened RecordQueue

  // ---------------------------------------------------------------- bags

  /** The records held in slots below `n`. */
  ghost function Bag(m: map<nat, AddressRecord>, n: nat): multiset<AddressRecord> {
    if n == 0 then multiset{}
    else Bag(m, n - 1) + if n - 1 in m then multiset{m[n - 1]} else multiset{}
  }

  lemma {:induction false} BagUpdate(m: map<nat, AddressRecord>, n: nat, k: nat, v: AddressRecord)
    requires k !in m
    ensures Bag(m[k := v], n) == Bag(m, n) + if k < n then multiset{v} else multiset{}
  {
    if n != 0 {
      BagUpdate(m, n - 1, k, v);
      if k == n - 1 {
        assert Bag(m[k := v], n) == Bag(m[k := v], n - 1) + multiset{v};
        assert Bag(m, n) == Bag(m, n - 1);
      }
    }
  }

  lemma {:induction false} BagEmpty(n: nat)
    ensures Bag(map[], n) == multiset{}
  {
    if n != 0 { BagEmpty(n - 1); }
  }

  lemma BagRemove(m: map<nat, AddressRecord>, n: nat, k: nat)
    requires k in m && k < n
    ensures Bag(m, n) == Bag(m - {k}, n) + multiset{m[k]}
  {
    BagUpdate(m - {k}, n, k, m[k]);
    assert (m - {k})[k := m[k]] == m;
  }

  ghost function TodoBag(todo: seq<seq<AddressRecord>>): multiset<AddressRecord> {
    if todo == [] then multiset{} else multiset(todo[0]) + TodoBag(todo[1..])
  }

  lemma {:induction false} TodoPop(todo: seq<seq<AddressRecord>>, w: nat)
    requires w < |todo| && todo[w] != []
    ensures TodoBag(todo) == TodoBag(todo[w := todo[w][1..]]) + multiset{todo[w][0]}
  {
    var todo' := todo[w := todo[w][1..]];
    if w == 0 {
      assert todo'[1..] == todo[1..];
      assert todo[0] == [todo[0][0]] + todo[0][1..];
    } else {
      assert todo'[1..] == todo[1..][w - 1 := todo[w][1..]];
      TodoPop(todo[1..], w - 1);
    }
  }

  lemma {:induction false} TodoEmpty(todo: seq<seq<AddressRecord>>)
    requires forall w | 0 <= w < |todo| :: todo[w] == []
    ensures TodoBag(todo) == multiset{}
  {
    if todo != [] { TodoEmpty(todo[1..]); }
  }

  // ---------------------------------------------------------------- what is outstanding

  ghost function BusySlots(warps: seq<Warp>): set<nat> {
    set w: nat | w < |warps| && warps[w].Busy() :: warps[w].slot
  }

  /** The consumer has read the full buffer and the leader has not finished rewinding it. */
  ghost predicate Consumed(warps: seq<Warp>, flag: bool) {
    exists w: nat :: w < |warps| && Rewinds(warps[w], flag)
  }

  predicate Rewinds(p: Warp, flag: bool) { p.ResettingHead? || p.ResettingTail? || (p.Awaiting? && !flag) }

  /** The buffer takes records: nobody is delivering or rewinding. */
  ghost predicate Open(c: Config, s: State) {
    (s.consumer.PollFlag? || s.consumer.PollThreads? || s.consumer.Check?) && !Consumed(s.warps, Flag(c, s))
  }

  /** The slots whose records are finished and not yet delivered, read off the protocol state. */
  ghost function Outstanding(c: Config, s: State): set<nat> {
    match s.consumer
    case Read(i) => Indices(c.size) - Indices(i)
    case LastRead(i) => Indices(s.head) - Indices(i)
    case Clear => {}
    case Finished => {}
    case _ => if Consumed(s.warps, Flag(c, s)) then {} else Indices(Min(s.tail, c.size)) - BusySlots(s.warps)
  }

  ghost predicate KeysInv(c: Config, s: State) { s.pending.Keys == Outstanding(c, s) }

  ghost predicate ContentInv(c: Config, s: State)
    requires Shape(c, s)
  {
    && (forall k | k in s.pending :: k < c.size && s.pending[k] == s.records[k])
    && (forall w | 0 <= w < |s.warps| && s.warps[w].Written? ::
          s.warps[w].slot < c.size && s.todo[w] != [] && s.records[s.warps[w].slot] == s.todo[w][0])
  }

  ghost predicate BagInv(c: Config, s: State) {
    && s.pushed == s.delivered + Bag(s.pending, c.size)
    && TodoBag(c.program) == s.pushed + TodoBag(s.todo)
  }

  ghost predicate DeliveryInv(c: Config, s: State) {
    Shape(c, s) && KeysInv(c, s) && ContentInv(c, s) && BagInv(c, s)
  }

  // ---------------------------------------------------------------- facts about the warps

  lemma SlotsAdded(warps: seq<Warp>, w: nat, p: Warp)
    requires w < |warps| && !warps[w].Busy()
    ensures BusySlots(warps[w := p]) == if p.Busy() then BusySlots(warps) + {p.slot} else BusySlots(warps)
  {
    var warps' := warps[w := p];
    assert forall v: nat | v < |warps| && v != w :: warps'[v] == warps[v];
    assert p.Busy() ==> warps'[w].Busy() && warps'[w].slot == p.slot;
    forall k | k in BusySlots(warps) ensures k in BusySlots(warps') {
      var v: nat :| v < |warps| && warps[v].Busy() && warps[v].slot == k;
      assert warps'[v].Busy();
    }
  }

  lemma SlotsRemoved(warps: seq<Warp>, w: nat, p: Warp, bound: nat)
    requires w < |warps| && warps[w].Busy() && !p.Busy() && DistinctSlots(warps, bound)
    ensures BusySlots(warps[w := p]) == BusySlots(warps) - {warps[w].slot}
  {
    var warps' := warps[w := p];
    SlotsAdded(warps', w, warps[w]);
    assert warps'[w := warps[w]] == warps;
    assert forall v: nat | v < |warps| && v != w :: warps'[v] == warps[v];
    assert warps[w].slot !in BusySlots(warps');
  }

  lemma ConsumedUpdate(warps: seq<Warp>, flag: bool, w: nat, p: Warp)
    requires w < |warps| && Rewinds(warps[w], flag) == Rewinds(p, flag)
    ensures Consumed(warps[w := p], flag) == Consumed(warps, flag)
  {
    var warps' := warps[w := p];
    if v: nat :| v < |warps| && Rewinds(warps[v], flag) {
      assert Rewinds(warps'[v], flag);
    }
    if v: nat :| v < |warps'| && Rewinds(warps'[v], flag) {
      assert Rewinds(warps[v], flag);
    }
  }

  /** With the flag up, or nobody left, no slot is under construction; and likewise while rewinding. */
  lemma QuietMoments(c: Config, s: State)
    requires ProtocolInv(c, s)
    ensures Flag(c, s) ==> s.head == c.size && BusySlots(s.warps) == {} && s.tail > c.size && !Consumed(s.warps, true)
    ensures s.numThreads == 0 ==>
      s.head == s.tail <= c.size && BusySlots(s.warps) == {} && !Consumed(s.warps, Flag(c, s))
    ensures Consumed(s.warps, Flag(c, s)) ==> s.tail > c.size && BusySlots(s.warps) == {} && !Flag(c, s)
  {
    ThreadsGone(c, s);
    assert forall v: nat | v < |s.warps| && s.warps[v].Leads() :: Leader(s.warps, v);
    assert forall v: nat | v < |s.warps| && s.warps[v].Busy() :: v in BusyWarps(s);
    if s.numThreads == 0 { assert BusyWarps(s) == {}; }
    if v: nat :| v < |s.warps| && s.warps[v].Leads() {
      assert forall u | 0 <= u < |s.warps| && u != v :: !s.warps[u].Leads();
    }
  }

  /** A warp that writes, draws a free slot or leads finds the consumer polling. */
  lemma RunningMeansPolling(c: Config, s: State, w: nat)
    requires ProtocolInv(c, s) && Enabled(c, s, WarpStep(w))
    ensures s.numThreads != 0
    ensures s.warps[w].Busy() || s.tail < c.size ==> Open(c, s) && !s.consumer.Check?
    ensures s.warps[w].Leads() && !Flag(c, s) ==> s.consumer.PollFlag? || s.consumer.PollThreads?
    ensures s.warps[w].Leads() && Flag(c, s) ==> s.warps[w].Awaiting?
  {
    QuietMoments(c, s);
    ThreadsGone(c, s);
    if s.warps[w].Busy() { assert s.warps[w].slot in BusySlots(s.warps); }
    if s.warps[w].Leads() && Flag(c, s) {
      var v: nat :| v < |s.warps| && s.warps[v].Awaiting?;
      assert Leader(s.warps, v) && Leader(s.warps, w);
    }
  }

  // ---------------------------------------------------------------- preservation

  lemma WarpKeepsKeys(c: Config, s: State, w: nat)
    requires ProtocolInv(c, s) && KeysInv(c, s) && Enabled(c, s, WarpStep(w))
    ensures KeysInv(c, ApplyWarp(c, s, w))
  {
    RunningMeansPolling(c, s, w);
    if s.warps[w].Writing? {
      StoreKeepsKeys(c, s, w);
    } else if s.warps[w].Written? {
      PushKeepsKeys(c, s, w);
    } else if s.warps[w].Leads() {
      LeaderKeepsKeys(c, s, w);
    } else if s.warps[w].Ready? && s.todo[w] != [] && s.tail < c.size {
      DrawKeepsKeys(c, s, w);
    } else {
      IdlingKeepsKeys(c, s, w);
    }
  }

  lemma StoreKeepsKeys(c: Config, s: State, w: nat)
    requires Shape(c, s) && SlotsInv(c, s) && KeysInv(c, s) && Enabled(c, s, WarpStep(w)) && s.warps[w].Writing?
    ensures KeysInv(c, ApplyWarp(c, s, w))
  {
    var p := Written(s.warps[w].slot);
    SlotsRemoved(s.warps, w, Ready, Min(s.tail, c.size));
    SlotsAdded(s.warps[w := Ready], w, p);
    assert s.warps[w := Ready][w := p] == s.warps[w := p];
    assert s.warps[w].slot in BusySlots(s.warps);
    assert BusySlots(s.warps[w := p]) == BusySlots(s.warps);
    ConsumedUpdate(s.warps, Flag(c, s), w, p);
  }

  lemma PushKeepsKeys(c: Config, s: State, w: nat)
    requires Shape(c, s) && SlotsInv(c, s) && KeysInv(c, s) && Enabled(c, s, WarpStep(w)) && s.warps[w].Written?
    requires Open(c, s)
    ensures KeysInv(c, ApplyWarp(c, s, w))
  {
    var k := s.warps[w].slot;
    SlotsRemoved(s.warps, w, Ready, Min(s.tail, c.size));
    ConsumedUpdate(s.warps, Flag(c, s), w, Ready);
    assert k in BusySlots(s.warps) && k in Indices(Min(s.tail, c.size));
    assert s.pending[k := s.records[k]].Keys == s.pending.Keys + {k};
  }

  lemma DrawKeepsKeys(c: Config, s: State, w: nat)
    requires Shape(c, s) && KeysInv(c, s) && Enabled(c, s, WarpStep(w))
    requires s.warps[w].Ready? && s.todo[w] != [] && s.tail < c.size && Open(c, s)
    ensures KeysInv(c, ApplyWarp(c, s, w))
  {
    SlotsAdded(s.warps, w, Writing(s.tail));
    ConsumedUpdate(s.warps, Flag(c, s), w, Writing(s.tail));
    NextSlot(s.tail, BusySlots(s.warps));
  }

  lemma NextSlot(k: nat, busy: set<nat>)
    ensures Indices(k) - busy == Indices(k + 1) - (busy + {k})
  {
  }

  lemma IdlingKeepsKeys(c: Config, s: State, w: nat)
    requires Shape(c, s) && KeysInv(c, s) && Enabled(c, s, WarpStep(w)) && (s.warps[w].Ready? || s.warps[w].Waiting?)
    requires s.warps[w].Ready? && s.todo[w] != [] ==> s.tail >= c.size
    ensures KeysInv(c, ApplyWarp(c, s, w))
  {
    var p := ApplyWarp(c, s, w).warps[w];
    SlotsAdded(s.warps, w, p);
    ConsumedUpdate(s.warps, Flag(c, s), w, p);
  }

  lemma LeaderKeepsKeys(c: Config, s: State, w: nat)
    requires Shape(c, s) && LeaderInv(c, s) && KeysInv(c, s) && Enabled(c, s, WarpStep(w)) && s.warps[w].Leads()
    requires !Flag(c, s) && (s.consumer.PollFlag? || s.consumer.PollThreads?)
    ensures KeysInv(c, ApplyWarp(c, s, w))
  {
    OthersUntouched(c, s, w);
    LeaderKeepsSlots(c, s, w);
  }

  lemma LeaderKeepsSlots(c: Config, s: State, w: nat)
    requires Shape(c, s) && KeysInv(c, s) && Enabled(c, s, WarpStep(w)) && s.warps[w].Leads()
    requires !Flag(c, s) && (s.consumer.PollFlag? || s.consumer.PollThreads?)
    requires s.tail > c.size && forall v | 0 <= v < |s.warps| && v != w :: !s.warps[v].Leads()
    ensures KeysInv(c, ApplyWarp(c, s, w))
  {
    var s' := ApplyWarp(c, s, w);
    SlotsAdded(s.warps, w, s'.warps[w]);
    OnlyLeaderRewinds(s.warps, w, false);
    OnlyLeaderRewinds(s'.warps, w, Flag(c, s'));
  }

  lemma OnlyLeaderRewinds(warps: seq<Warp>, w: nat, flag: bool)
    requires w < |warps| && forall v | 0 <= v < |warps| && v != w :: !warps[v].Leads()
    ensures Consumed(warps, flag) == Rewinds(warps[w], flag)
  {
    assert forall v | 0 <= v < |warps| && v != w :: !Rewinds(warps[v], flag);
  }

  lemma WarpKeepsContent(c: Config, s: State, w: nat)
    requires Shape(c, s) && SlotsInv(c, s) && KeysInv(c, s) && ContentInv(c, s) && Enabled(c, s, WarpStep(w))
    requires s.warps[w].Busy() ==> Open(c, s)
    ensures Shape(c, ApplyWarp(c, s, w)) && ContentInv(c, ApplyWarp(c, s, w))
  {
    if s.warps[w].Writing? {
      StoreKeepsContent(c, s, w);
    } else {
      var s' := ApplyWarp(c, s, w);
      assert forall v | 0 <= v < |s.warps| && v != w :: s'.warps[v] == s.warps[v];
    }
  }

  lemma StoreKeepsContent(c: Config, s: State, w: nat)
    requires Shape(c, s) && SlotsInv(c, s) && KeysInv(c, s) && ContentInv(c, s) && Enabled(c, s, WarpStep(w))
    requires s.warps[w].Writing? && Open(c, s)
    ensures Shape(c, ApplyWarp(c, s, w)) && ContentInv(c, ApplyWarp(c, s, w))
  {
    var s' := ApplyWarp(c, s, w);
    assert forall v | 0 <= v < |s.warps| && v != w :: s'.warps[v] == s.warps[v];
    assert s.warps[w].slot in BusySlots(s.warps);
  }

  lemma WarpKeepsBags(c: Config, s: State, w: nat)
    requires DeliveryInv(c, s) && Enabled(c, s, WarpStep(w))
    requires s.warps[w].Busy() ==> Open(c, s)
    ensures BagInv(c, ApplyWarp(c, s, w))
  {
    if s.warps[w].Written? {
      var k := s.warps[w].slot;
      assert k in BusySlots(s.warps);
      BagUpdate(s.pending, c.size, k, s.records[k]);
      TodoPop(s.todo, w);
    }
  }

  lemma ConsumerKeepsKeys(c: Config, s: State)
    requires ProtocolInv(c, s) && KeysInv(c, s) && Enabled(c, s, ConsumerStep)
    ensures KeysInv(c, ApplyConsumer(c, s))
    ensures (s.consumer.Read? || s.consumer.LastRead?) && s.consumer.next < s.head ==> s.consumer.next in s.pending
  {
    QuietMoments(c, s);
    if s.consumer.Clear? {
      var v: nat :| v < |s.warps| && s.warps[v].Awaiting?;
      assert Rewinds(s.warps[v], false);
    } else if s.consumer.Read? || s.consumer.LastRead? {
      ReadKeepsKeys(c, s);
    } else {
      PollKeepsKeys(c, s);
    }
  }

  lemma PollKeepsKeys(c: Config, s: State)
    requires Shape(c, s) && ConsumerInv(c, s) && KeysInv(c, s)
    requires s.consumer.PollFlag? || s.consumer.PollThreads? || s.consumer.Check?
    requires Flag(c, s) ==> s.head == c.size && BusySlots(s.warps) == {} && s.tail > c.size && !Consumed(s.warps, true)
    requires s.numThreads == 0 ==>
      s.head == s.tail <= c.size && BusySlots(s.warps) == {} && !Consumed(s.warps, Flag(c, s))
    ensures KeysInv(c, ApplyConsumer(c, s))
  {
    ReadSlot(s.pending, s.head, 0);
  }

  lemma ReadKeepsKeys(c: Config, s: State)
    requires KeysInv(c, s) && Enabled(c, s, ConsumerStep)
    requires s.consumer.LastRead? || (s.consumer.Read? && s.head == c.size)
    ensures KeysInv(c, ApplyConsumer(c, s))
    ensures s.consumer.next < s.head ==> s.consumer.next in s.pending
  {
    ReadSlot(s.pending, s.head, s.consumer.next);
  }

  lemma ReadSlot(m: map<nat, AddressRecord>, n: nat, i: nat)
    ensures Indices(n) - {} == Indices(n) - Indices(0)
    ensures i >= n ==> Indices(n) - Indices(i) == {}
    ensures i < n && m.Keys == Indices(n) - Indices(i) ==> i in m && (m - {i}).Keys == Indices(n) - Indices(i + 1)
  {
  }

  lemma ConsumerKeepsDelivery(c: Config, s: State)
    requires DeliveryInv(c, s) && Enabled(c, s, ConsumerStep) && KeysInv(c, ApplyConsumer(c, s))
    requires (s.consumer.Read? || s.consumer.LastRead?) && s.consumer.next < s.head ==> s.consumer.next in s.pending
    ensures DeliveryInv(c, ApplyConsumer(c, s))
  {
    if (s.consumer.Read? || s.consumer.LastRead?) && s.consumer.next < s.head {
      ReadDelivers(c, s, s.consumer.next);
    }
  }

  /** Reading a slot moves its record from the finished slots to the delivered records. */
  lemma ReadDelivers(c: Config, s: State, i: nat)
    requires Shape(c, s) && ContentInv(c, s) && BagInv(c, s) && i in s.pending
    ensures i < c.size && ContentInv(c, Deliver(s, i)) && BagInv(c, Deliver(s, i))
  {
    BagRemove(s.pending, c.size, i);
  }

  lemma DeliveryStep(c: Config, s: State, a: Action)
    requires ProtocolInv(c, s) && DeliveryInv(c, s) && Enabled(c, s, a)
    ensures ProtocolInv(c, Apply(c, s, a)) && DeliveryInv(c, Apply(c, s, a))
  {
    ProtocolStep(c, s, a);
    match a
    case ConsumerStep =>
      ConsumerKeepsKeys(c, s);
      ConsumerKeepsDelivery(c, s);
    case WarpStep(w) =>
      RunningMeansPolling(c, s, w);
      WarpKeepsKeys(c, s, w);
      WarpKeepsContent(c, s, w);
      WarpKeepsBags(c, s, w);
  }

  lemma DeliveryInitial(c: Config, s: State)
    requires Initial(c, s)
    ensures ProtocolInv(c, s) && DeliveryInv(c, s)
  {
    ProtocolInitial(c, s);
    BagEmpty(c.size);
  }

  lemma {:induction false} DeliveryRun(c: Config, s: State, actions: seq<Action>, s': State)
    requires ProtocolInv(c, s) && DeliveryInv(c, s) && Runs(c, s, actions, s')
    ensures ProtocolInv(c, s') && DeliveryInv(c, s')
    decreases |actions|
  {
    if actions != [] {
      DeliveryStep(c, s, actions[0]);
      DeliveryRun(c, Apply(c, s, actions[0]), actions[1..], s');
    }
  }

  lemma ReachableDelivery(c: Config, s: State)
    requires Reachable(c, s)
    ensures ProtocolInv(c, s) && DeliveryInv(c, s)
  {
    var s0: State, actions: seq<Action> :| Initial(c, s0) && Runs(c, s0, actions, s);
    DeliveryInitial(c, s0);
    DeliveryRun(c, s0, actions, s);
  }

  /**
   * Exactly-once delivery. At every moment the records pushed are those delivered plus those
   * sitting in finished slots; nothing is delivered twice or invented. Once the consumer has
   * finished, no thread is left, no flag is up, and the delivered bag is exactly what all warps set
   * out to record.
   */
  lemma ExactlyOnce(c: Config, s: State)
    requires Reachable(c, s)
    ensures s.delivered <= s.pushed <= TodoBag(c.program)
    ensures s.analysis || s.full ==> s.numThreads > 0
    ensures s.consumer.Finished? ==>
              s.numThreads == 0 && !s.analysis && !s.full &&
              s.delivered == s.pushed == TodoBag(c.program)
  {
    ReachableDelivery(c, s);
    QueueSafety(c, s);
    if s.consumer.Finished? {
      assert s.pending == map[];
      BagEmpty(c.size);
      ThreadsGone(c, s);
      TodoEmpty(s.todo);
    }
  }
}
