/**
 * How memory operations become graph edges (redshow/src/analysis/memory_liveness.cpp). A history of
 * callbacks is replayed into the graph; every hazard between two operations of the history is a path
 * of the graph, and every edge of the graph is such a hazard or a stream successor.
 */
module Hazards {
  import opened Paths

  datatype AccessType = READ | WRITE

  /** One call of `update_graph_at_malloc`, `_free` or `_access`; an object is named by its allocation. */
  datatype Event =
    | Malloc(op: nat, stream: nat)
    | Free(op: nat, stream: nat, obj: nat)
    | Access(op: nat, stream: nat, obj: nat, access: AccessType)
  {
    function Object(): nat { if Malloc? then op else obj }

    predicate Writes() { Access? ==> access == WRITE }
  }

  /** The maps of MemoryLiveness that decide which edges are drawn. */
  datatype State = State(
    nodes: set<nat>, edges: set<EdgeIndex>,
    owner: map<nat, nat>, readers: map<nat, seq<nat>>, streams: map<nat, nat>)

  const EMPTY := State({}, {}, map[], map[], map[])

  // ---------------------------------------------------------------- one callback

  /** The object of a callback must be in the ownership maps; their `at` throws otherwise. */
  predicate Known(s: State, e: Event) {
    e.Malloc? || (e.obj in s.owner && e.obj in s.readers)
  }

  function StreamEdges(s: State, e: Event): set<EdgeIndex> {
    if e.stream in s.streams && s.streams[e.stream] != e.op
    then {EdgeIndex(s.streams[e.stream], e.op, StreamDependency)} else {}
  }

  function DataEdges(s: State, e: Event): set<EdgeIndex>
    requires Known(s, e)
  {
    if e.Malloc? then {}
    else if e.Writes() && s.readers[e.obj] != [] then
      set r | r in s.readers[e.obj] :: EdgeIndex(r, e.op, DataDependency)
    else {EdgeIndex(s.owner[e.obj], e.op, DataDependency)}
  }

  function Step(s: State, e: Event): State {
    if !Known(s, e) then s
    else
      var o := e.Object();
      State(s.nodes + {e.op}, s.edges + StreamEdges(s, e) + DataEdges(s, e),
            if e.Writes() then s.owner[o := e.op] else s.owner,
            s.readers[o := if e.Writes() then [] else s.readers[o] + [e.op]],
            s.streams[e.stream := e.op])
  }

  function Replay(h: seq<Event>): State {
    if h == [] then EMPTY else Step(Replay(h[..|h| - 1]), h[|h| - 1])
  }

  // ---------------------------------------------------------------- histories

  function Allocated(h: seq<Event>): set<nat> {
    set i | 0 <= i < |h| && h[i].Malloc? :: h[i].op
  }

  /**
   * Callbacks arrive with operation ids that never decrease; allocating and freeing use an id of
   * their own; and a callback names an object allocated before it.
   */
  predicate Legal(h: seq<Event>) {
    && (forall i, j | 0 <= i < j < |h| :: h[i].op <= h[j].op && (h[i].op == h[j].op ==> h[i].Access? && h[j].Access?))
    && (forall j | 0 <= j < |h| && !h[j].Malloc? :: h[j].obj in Allocated(h[..j]))
  }

  lemma LegalPrefix(h: seq<Event>)
    requires Legal(h) && h != []
    ensures Legal(h[..|h| - 1]) && h == h[..|h| - 1] + [h[|h| - 1]]
  {
    var g := h[..|h| - 1];
    forall j | 0 <= j < |g| && !g[j].Malloc? ensures g[j].obj in Allocated(g[..j]) {
      assert g[..j] == h[..j] && h[j].obj in Allocated(h[..j]);
    }
  }

  /** Two callbacks of the history touch one object and at least one allocates, writes or frees it. */
  predicate Conflict(h: seq<Event>, i: int, j: int) {
    0 <= i < j < |h| && h[i].Object() == h[j].Object() && (h[i].Writes() || h[j].Writes())
  }

  /** Callback `j` is the next one on its stream after `i`, and belongs to another operation. */
  predicate StreamSuccessor(h: seq<Event>, i: int, j: int) {
    && 0 <= i < j < |h| && h[i].stream == h[j].stream && h[i].op != h[j].op
    && forall k | i < k < j :: h[k].stream != h[i].stream
  }

  // ---------------------------------------------------------------- objects

  /** Callback `i` of the history touched `o` and its operation is `op`. */
  predicate Touched(h: seq<Event>, i: int, o: nat, op: nat) { 0 <= i < |h| && h[i].Object() == o && h[i].op == op }

  /** Where the maps come from: owners wrote, readers read. */
  ghost predicate Provenance(h: seq<Event>, s: State) {
    s.readers.Keys == s.owner.Keys == Allocated(h) && OwnersWrote(h, s.owner) && ReadersRead(h, s.readers)
  }

  ghost predicate OwnersWrote(h: seq<Event>, owner: map<nat, nat>) {
    forall o | o in owner :: exists i :: Touched(h, i, o, owner[o]) && h[i].Writes()
  }

  ghost predicate ReadersRead(h: seq<Event>, readers: map<nat, seq<nat>>) {
    forall o, r | o in readers && r in readers[o] :: exists i :: Touched(h, i, o, r) && !h[i].Writes()
  }

  /** Everything that touched an object leads to its owner, or is one of its readers since. */
  ghost predicate Funnelled(h: seq<Event>, s: State) {
    && (forall i | 0 <= i < |h| :: LeadsToOwner(s, h[i]))
    && OwnerLeads(s)
  }

  ghost predicate LeadsToOwner(s: State, x: Event) {
    var o := x.Object();
    && o in s.owner && o in s.readers
    && (PathOrSame(s.edges, x.op, s.owner[o]) || (!x.Writes() && x.op in s.readers[o]))
  }

  ghost predicate OwnerLeads(s: State) {
    forall o, r | o in s.owner && o in s.readers && r in s.readers[o] :: PathOrSame(s.edges, s.owner[o], r)
  }

  ghost predicate HazardsCovered(h: seq<Event>, s: State) {
    forall i, j | Conflict(h, i, j) :: Path(s.edges, h[i].op, h[j].op)
  }

  lemma PathsGrow(edges: set<EdgeIndex>, more: set<EdgeIndex>)
    requires edges <= more
    ensures forall a, b | Path(edges, a, b) :: Path(more, a, b)
  {
    forall a, b | Path(edges, a, b) ensures Path(more, a, b) { PathGrows(edges, more, a, b); }
  }

  lemma AllocatedStep(h: seq<Event>, e: Event)
    ensures Allocated(h + [e]) == if e.Malloc? then Allocated(h) + {e.op} else Allocated(h)
  {
    var h' := h + [e];
    assert h'[|h|] == e && forall i | 0 <= i < |h| :: h'[i] == h[i];
  }

  lemma OwnersStep(h: seq<Event>, e: Event, owner: map<nat, nat>)
    requires OwnersWrote(h, owner)
    ensures OwnersWrote(h + [e], owner)
    ensures e.Writes() ==> OwnersWrote(h + [e], owner[e.Object() := e.op])
  {
    var h' := h + [e];
    assert Touched(h', |h|, e.Object(), e.op);
    forall o | o in owner ensures exists i :: Touched(h', i, o, owner[o]) && h'[i].Writes() {
      var i :| Touched(h, i, o, owner[o]) && h[i].Writes();
      assert Touched(h', i, o, owner[o]);
    }
  }

  lemma ReadersStep(h: seq<Event>, e: Event, readers: map<nat, seq<nat>>)
    requires ReadersRead(h, readers)
    ensures ReadersRead(h + [e], readers[e.Object() := []])
    ensures !e.Writes() && e.Object() in readers ==>
              ReadersRead(h + [e], readers[e.Object() := readers[e.Object()] + [e.op]])
  {
    var h' := h + [e];
    assert Touched(h', |h|, e.Object(), e.op);
    forall o, r | o in readers && r in readers[o] ensures exists i :: Touched(h', i, o, r) && !h'[i].Writes() {
      var i :| Touched(h, i, o, r) && !h[i].Writes();
      assert Touched(h', i, o, r);
    }
  }

  lemma LegalNext(h: seq<Event>, e: Event)
    requires Legal(h + [e])
    ensures !e.Malloc? ==> e.obj in Allocated(h)
  {
    assert (h + [e])[..|h|] == h && (h + [e])[|h|] == e;
  }

  lemma MapsStep(h: seq<Event>, s: State, e: Event)
    requires Provenance(h, s) && (!e.Malloc? ==> e.obj in Allocated(h))
    ensures Known(s, e) && Step(s, e).readers.Keys == Step(s, e).owner.Keys == Allocated(h + [e])
  {
    AllocatedStep(h, e);
  }

  lemma ProvenanceStep(h: seq<Event>, s: State, e: Event)
    requires Legal(h + [e]) && Provenance(h, s)
    ensures Known(s, e) && Provenance(h + [e], Step(s, e))
  {
    LegalNext(h, e);
    MapsStep(h, s, e);
    OwnersStep(h, e, s.owner);
    ReadersStep(h, e, s.readers);
  }

  /** The new callback is reached from every earlier one it conflicts with. */
  lemma NewHazard(s: State, e: Event, x: Event)
    requires Known(s, e) && LeadsToOwner(s, x) && OwnerLeads(s)
    requires !e.Malloc? && x.Object() == e.obj && (x.Writes() || e.Writes())
    ensures Path(Step(s, e).edges, x.op, e.op)
  {
    var more := Step(s, e).edges;
    PathsGrow(s.edges, more);
    var readers := s.readers[e.obj];
    if e.Writes() && readers != [] {
      assert forall r | r in readers :: EdgeIndex(r, e.op, DataDependency) in DataEdges(s, e);
      if x.op in readers {
        PathExtend(more, x.op, x.op, e.op);
      } else {
        var r := readers[0];
        assert r in readers;
        PathsJoin(more, x.op, s.owner[e.obj], r);
        PathExtend(more, x.op, r, e.op);
      }
    } else {
      assert Linked(more, s.owner[e.obj], e.op);
      PathExtend(more, x.op, s.owner[e.obj], e.op);
    }
  }

  lemma OwnerLeadsStep(s: State, e: Event)
    requires Known(s, e) && OwnerLeads(s)
    ensures OwnerLeads(Step(s, e))
  {
    var s' := Step(s, e);
    PathsGrow(s.edges, s'.edges);
    if !e.Writes() {
      assert Linked(s'.edges, s.owner[e.obj], e.op);
      PathExtend(s'.edges, s.owner[e.obj], s.owner[e.obj], e.op);
    }
  }

  lemma LeadsToOwnerStep(s: State, e: Event, x: Event)
    requires Known(s, e) && OwnerLeads(s) && LeadsToOwner(s, x) && (e.Malloc? ==> x.Object() != e.op)
    ensures LeadsToOwner(Step(s, e), x)
  {
    PathsGrow(s.edges, Step(s, e).edges);
    if e.Writes() && x.Object() == e.Object() { NewHazard(s, e, x); }
  }

  lemma FunnelledStep(h: seq<Event>, s: State, e: Event)
    requires Legal(h + [e]) && Known(s, e) && Funnelled(h, s)
    ensures Funnelled(h + [e], Step(s, e))
  {
    OwnerLeadsStep(s, e);
    forall i | 0 <= i < |h + [e]| ensures LeadsToOwner(Step(s, e), (h + [e])[i]) {
      if i < |h| {
        if e.Malloc? { FreshObject(h, e, i); }
        assert LeadsToOwner(s, h[i]);
        LeadsToOwnerStep(s, e, h[i]);
      }
    }
  }

  /** Nothing touched an object before the operation that allocates it. */
  lemma FreshObject(h: seq<Event>, e: Event, i: int)
    requires Legal(h + [e]) && e.Malloc? && 0 <= i < |h|
    ensures h[i].Object() != e.op
  {
    var h' := h + [e];
    assert h'[i] == h[i] && h'[|h|] == e;
    if !h[i].Malloc? {
      assert h'[i].obj in Allocated(h'[..i]);
      var k :| 0 <= k < i && h'[..i][k].Malloc? && h'[..i][k].op == h[i].obj;
      assert h'[k].op == h[i].obj;
    }
  }

  lemma HazardsStep(h: seq<Event>, s: State, e: Event)
    requires Legal(h + [e]) && Known(s, e) && Funnelled(h, s) && HazardsCovered(h, s)
    ensures HazardsCovered(h + [e], Step(s, e))
  {
    var h', s' := h + [e], Step(s, e);
    PathsGrow(s.edges, s'.edges);
    forall i, j | Conflict(h', i, j) ensures Path(s'.edges, h'[i].op, h'[j].op) {
      assert h'[i] == h[i];
      if j < |h| {
        assert h'[j] == h[j] && Conflict(h, i, j);
      } else if e.Malloc? {
        FreshObject(h, e, i);
      } else {
        NewHazard(s, e, h[i]);
      }
    }
  }

  lemma {:induction false} ObjectsInv(h: seq<Event>)
    requires Legal(h)
    ensures Provenance(h, Replay(h)) && Funnelled(h, Replay(h)) && HazardsCovered(h, Replay(h))
    decreases |h|
  {
    if h != [] {
      LegalPrefix(h);
      var g, e := h[..|h| - 1], h[|h| - 1];
      ObjectsInv(g);
      ProvenanceStep(g, Replay(g), e);
      FunnelledStep(g, Replay(g), e);
      HazardsStep(g, Replay(g), e);
    }
  }

  /**
   * Hazard completeness: over every legal history, if two callbacks touch one object and one of them
   * allocates, writes or frees it, the graph has a path from the earlier operation to the later.
   */
  lemma HazardComplete(h: seq<Event>, i: int, j: int)
    requires Legal(h) && Conflict(h, i, j)
    ensures Path(Replay(h).edges, h[i].op, h[j].op)
  {
    ObjectsInv(h);
  }

  // ---------------------------------------------------------------- streams

  /** Callback `i` is the last one on stream `t` and its operation is `op`. */
  predicate LastOnStream(h: seq<Event>, i: int, t: nat, op: nat) {
    0 <= i < |h| && h[i].stream == t && h[i].op == op && forall k | i < k < |h| :: h[k].stream != t
  }

  ghost predicate StreamsInv(h: seq<Event>, s: State) {
    && (forall t | t in s.streams :: exists i :: LastOnStream(h, i, t, s.streams[t]))
    && (forall i | 0 <= i < |h| :: LeadsToStream(s, h[i]))
    && StreamsOrdered(h, s.edges)
  }

  ghost predicate StreamsOrdered(h: seq<Event>, edges: set<EdgeIndex>) {
    forall i, j | 0 <= i < j < |h| && h[i].stream == h[j].stream :: PathOrSame(edges, h[i].op, h[j].op)
  }

  ghost predicate LeadsToStream(s: State, x: Event) {
    x.stream in s.streams && PathOrSame(s.edges, x.op, s.streams[x.stream])
  }

  lemma LastOnStreamStep(h: seq<Event>, s: State, e: Event, t: nat)
    requires t in s.streams ==> exists i :: LastOnStream(h, i, t, s.streams[t])
    requires Known(s, e) && t in Step(s, e).streams
    ensures exists i :: LastOnStream(h + [e], i, t, Step(s, e).streams[t])
  {
    var h' := h + [e];
    if t == e.stream {
      assert LastOnStream(h', |h|, t, e.op);
    } else {
      var i :| LastOnStream(h, i, t, s.streams[t]);
      assert forall k | 0 <= k < |h| :: h'[k] == h[k];
      assert LastOnStream(h', i, t, s.streams[t]);
    }
  }

  lemma LeadsToStreamStep(s: State, e: Event, x: Event)
    requires Known(s, e) && LeadsToStream(s, x)
    ensures LeadsToStream(Step(s, e), x)
    ensures x.stream == e.stream ==> PathOrSame(Step(s, e).edges, x.op, e.op)
  {
    var edges := Step(s, e).edges;
    PathsGrow(s.edges, edges);
    if x.stream == e.stream && s.streams[e.stream] != e.op {
      assert Linked(edges, s.streams[e.stream], e.op);
      PathExtend(edges, x.op, s.streams[e.stream], e.op);
    }
  }

  lemma StreamsOrderedStep(h: seq<Event>, edges: set<EdgeIndex>, e: Event, more: set<EdgeIndex>)
    requires StreamsOrdered(h, edges) && edges <= more
    requires forall i | 0 <= i < |h| && h[i].stream == e.stream :: PathOrSame(more, h[i].op, e.op)
    ensures StreamsOrdered(h + [e], more)
  {
    PathsGrow(edges, more);
  }

  lemma StreamStep(h: seq<Event>, s: State, e: Event)
    requires StreamsInv(h, s) && Known(s, e)
    ensures StreamsInv(h + [e], Step(s, e))
  {
    var h', s' := h + [e], Step(s, e);
    forall t | t in s'.streams ensures exists i :: LastOnStream(h', i, t, s'.streams[t]) {
      LastOnStreamStep(h, s, e, t);
    }
    forall x | LeadsToStream(s, x)
      ensures LeadsToStream(s', x) && (x.stream == e.stream ==> PathOrSame(s'.edges, x.op, e.op))
    {
      LeadsToStreamStep(s, e, x);
    }
    StreamsOrderedStep(h, s.edges, e, s'.edges);
  }

  lemma {:induction false} StreamsRun(h: seq<Event>)
    requires Legal(h)
    ensures StreamsInv(h, Replay(h))
    decreases |h|
  {
    if h != [] {
      LegalPrefix(h);
      var g, e := h[..|h| - 1], h[|h| - 1];
      StreamsRun(g);
      ObjectsInv(g);
      ProvenanceStep(g, Replay(g), e);
      StreamStep(g, Replay(g), e);
    }
  }

  /** Any two operations on one stream are ordered by a path, earlier to later. */
  lemma StreamOrdered(h: seq<Event>, i: int, j: int)
    requires Legal(h) && 0 <= i < j < |h| && h[i].stream == h[j].stream && h[i].op != h[j].op
    ensures Path(Replay(h).edges, h[i].op, h[j].op)
  {
    StreamsRun(h);
  }

  // ---------------------------------------------------------------- no other edges

  /** Why an edge is there. */
  ghost predicate Justified(h: seq<Event>, e: EdgeIndex) {
    match e.kind
    case StreamDependency => exists i, j :: StreamSuccessor(h, i, j) && h[i].op == e.from && h[j].op == e.to
    case DataDependency => exists i, j :: Conflict(h, i, j) && h[i].op == e.from && h[j].op == e.to
  }

  lemma JustifiedGrows(h: seq<Event>, e: Event, x: EdgeIndex)
    requires Justified(h, x)
    ensures Justified(h + [e], x)
  {
    var h' := h + [e];
    assert forall i | 0 <= i < |h| :: h'[i] == h[i];
    match x.kind
    case StreamDependency =>
      var i, j :| StreamSuccessor(h, i, j) && h[i].op == x.from && h[j].op == x.to;
      assert StreamSuccessor(h', i, j);
    case DataDependency =>
      var i, j :| Conflict(h, i, j) && h[i].op == x.from && h[j].op == x.to;
      assert Conflict(h', i, j);
  }

  lemma NewStreamEdge(h: seq<Event>, s: State, e: Event, x: EdgeIndex)
    requires StreamsInv(h, s) && x in StreamEdges(s, e)
    ensures Justified(h + [e], x)
  {
    var h' := h + [e];
    var i :| LastOnStream(h, i, e.stream, s.streams[e.stream]);
    assert forall k | 0 <= k < |h| :: h'[k] == h[k];
    assert StreamSuccessor(h', i, |h|);
  }

  lemma NewDataEdge(h: seq<Event>, s: State, e: Event, x: EdgeIndex)
    requires Provenance(h, s) && Known(s, e) && x in DataEdges(s, e)
    ensures Justified(h + [e], x)
  {
    var h' := h + [e];
    if x.from in s.readers[e.obj] && e.Writes() {
      var i :| Touched(h, i, e.obj, x.from) && !h[i].Writes();
      assert Conflict(h', i, |h|);
    } else {
      var i :| Touched(h, i, e.obj, s.owner[e.obj]) && h[i].Writes();
      assert Conflict(h', i, |h|);
    }
  }

  /** Every edge joins two conflicting operations, or an operation and the next one on its stream. */
  lemma {:induction false} EdgesJustified(h: seq<Event>)
    requires Legal(h)
    ensures forall x | x in Replay(h).edges :: Justified(h, x)
    decreases |h|
  {
    if h != [] {
      LegalPrefix(h);
      var g, e := h[..|h| - 1], h[|h| - 1];
      EdgesJustified(g);
      ObjectsInv(g);
      ProvenanceStep(g, Replay(g), e);
      StreamsRun(g);
      forall x | x in Replay(h).edges ensures Justified(h, x) {
        if x in Replay(g).edges {
          JustifiedGrows(g, e, x);
        } else if x in StreamEdges(Replay(g), e) {
          NewStreamEdge(g, Replay(g), e, x);
        } else {
          NewDataEdge(g, Replay(g), e, x);
        }
      }
    }
  }

  // ---------------------------------------------------------------- cycles

  /** One operation touches one object twice, at least once writing it. */
  ghost predicate SelfConflict(h: seq<Event>) {
    exists i, j :: Conflict(h, i, j) && h[i].op == h[j].op
  }

  /**
   * Edges go from smaller to larger operation ids exactly when no operation conflicts with itself.
   * A copy within one object, or a kernel whose trace is flushed twice, breaks it: the graph then
   * holds a cycle through that operation.
   */
  lemma IncreasingIff(h: seq<Event>)
    requires Legal(h)
    ensures Increasing(Replay(h).edges) <==> !SelfConflict(h)
    ensures Acyclic(Replay(h).edges) <==> !SelfConflict(h)
  {
    var edges := Replay(h).edges;
    if SelfConflict(h) {
      var i, j :| Conflict(h, i, j) && h[i].op == h[j].op;
      HazardComplete(h, i, j);
      assert Path(edges, h[i].op, h[i].op);
      if Increasing(edges) { IncreasingAcyclic(edges); }
    } else {
      EdgesJustified(h);
      forall x | x in edges ensures x.from < x.to {
        assert Justified(h, x);
        match x.kind
        case StreamDependency =>
          var i, j :| StreamSuccessor(h, i, j) && h[i].op == x.from && h[j].op == x.to;
        case DataDependency =>
          var i, j :| Conflict(h, i, j) && h[i].op == x.from && h[j].op == x.to;
      }
      IncreasingAcyclic(edges);
    }
  }

  function Ops(h: seq<Event>): set<nat> { set i | 0 <= i < |h| :: h[i].op }

  lemma OpsStep(h: seq<Event>, e: Event)
    ensures Ops(h + [e]) == Ops(h) + {e.op}
  {
    var h' := h + [e];
    assert h'[|h|] == e && forall i | 0 <= i < |h| :: h'[i] == h[i];
  }

  lemma {:induction false} NodesAreOps(h: seq<Event>)
    requires Legal(h)
    ensures Replay(h).nodes == Ops(h)
    decreases |h|
  {
    if h != [] {
      LegalPrefix(h);
      var g, e := h[..|h| - 1], h[|h| - 1];
      NodesAreOps(g);
      OpsStep(g, e);
      ObjectsInv(g);
      ProvenanceStep(g, Replay(g), e);
    }
  }
}
