/** The graph-building half of MemoryLiveness, as the callbacks drive it. */
module Liveness {
  import opened Paths
  import opened DependencyGraphs
  import opened Hazards

  /** One entry of the address dictionary a kernel filled in, with its object already looked up. */
  datatype AuxEntry = AuxEntry(obj: nat, hit: bool, read: bool, write: bool)

  /** The accesses a kernel's dictionary stands for: hit entries, a write hiding a read. */
  function KernelEvents(aux: seq<AuxEntry>, op: nat, stream: nat): seq<Event> {
    if aux == [] then []
    else
      var before, a := KernelEvents(aux[..|aux| - 1], op, stream), aux[|aux| - 1];
      if a.hit && a.write then before + [Access(op, stream, a.obj, WRITE)]
      else if a.hit && a.read then before + [Access(op, stream, a.obj, READ)]
      else before
  }

  /** The entry stands for an access. */
  predicate Accesses(a: AuxEntry) { a.hit && (a.write || a.read) }

  ghost function Accessing(aux: seq<AuxEntry>): set<int> { set i | 0 <= i < |aux| && Accesses(aux[i]) }

  /** One event per accessing entry, in their order: the `i`-th entry's comes after those of the entries before it. */
  lemma {:induction false} KernelEventsExact(aux: seq<AuxEntry>, op: nat, stream: nat)
    ensures |KernelEvents(aux, op, stream)| == |Accessing(aux)|
    ensures forall i | i in Accessing(aux) ::
              && |Accessing(aux[..i])| < |Accessing(aux)|
              && KernelEvents(aux, op, stream)[|Accessing(aux[..i])|]
              == Access(op, stream, aux[i].obj, if aux[i].write then WRITE else READ)
  {
    if aux != [] {
      var n := |aux| - 1;
      var front := aux[..n];
      KernelEventsExact(front, op, stream);
      AccessingNext(aux);
      forall i | i in Accessing(aux)
        ensures |Accessing(aux[..i])| < |Accessing(aux)|
        ensures KernelEvents(aux, op, stream)[|Accessing(aux[..i])|]
             == Access(op, stream, aux[i].obj, if aux[i].write then WRITE else READ)
      {
        if i < n { assert i in Accessing(front) && front[..i] == aux[..i]; }
      }
    }
  }

  lemma AccessingNext(aux: seq<AuxEntry>)
    requires aux != []
    ensures var n := |aux| - 1;
            |Accessing(aux)| == |Accessing(aux[..n])| + if Accesses(aux[n]) then 1 else 0
  {
    var n := |aux| - 1;
    assert Accessing(aux) == if Accesses(aux[n]) then Accessing(aux[..n]) + {n} else Accessing(aux[..n]);
  }

  /** Every operation the maps mention is a node. */
  predicate Closed(s: State) {
    && (forall o | o in s.owner :: s.owner[o] in s.nodes)
    && (forall o, r | o in s.readers && r in s.readers[o] :: r in s.nodes)
    && (forall t | t in s.streams :: s.streams[t] in s.nodes)
  }

  lemma LegalStart(h: seq<Event>, n: nat)
    requires Legal(h) && n <= |h|
    ensures Legal(h[..n])
    decreases |h|
  {
    if n < |h| {
      LegalPrefix(h);
      LegalStart(h[..|h| - 1], n);
      assert h[..|h| - 1][..n] == h[..n];
    } else {
      assert h[..n] == h;
    }
  }

  lemma LastReplayed(h: seq<Event>, e: Event)
    requires Legal(h + [e])
    ensures Legal(h) && Known(Replay(h), e) && Step(Replay(h), e) == Replay(h + [e])
  {
    LegalPrefix(h + [e]);
    assert (h + [e])[..|h|] == h && (h + [e])[|h|] == e;
    ObjectsInv(h);
    ProvenanceStep(h, Replay(h), e);
  }

  /** What a legal next callback gives the code: a known object, and a fresh node where it adds one. */
  lemma NextCallback(h: seq<Event>, e: Event)
    requires Legal(h + [e])
    ensures Legal(h) && Known(Replay(h), e) && Step(Replay(h), e) == Replay(h + [e])
    ensures !e.Access? ==> e.op !in Replay(h).nodes
  {
    LastReplayed(h, e);
    NodesAreOps(h);
    assert (h + [e])[|h|] == e && forall i | 0 <= i < |h| :: (h + [e])[i] == h[i];
  }

  lemma ClosedStep(s: State, e: Event)
    requires Closed(s) && Known(s, e)
    ensures Closed(Step(s, e))
  {
  }

  /** The state after a callback, part by part. */
  lemma StepIs(s: State, s': State, e: Event)
    requires Known(s, e) && s'.nodes == s.nodes + {e.op}
    requires s'.edges == s.edges + StreamEdges(s, e) + DataEdges(s, e)
    requires s'.owner == Step(s, e).owner && s'.readers == Step(s, e).readers
    requires s'.streams == s.streams[e.stream := e.op]
    ensures s' == Step(s, e)
  {
  }

  class MemoryLiveness {
    const graph: DependencyGraph
    var owner: map<nat, nat>
    var readers: map<nat, seq<nat>>
    var streams: map<nat, nat>
    ghost var history: seq<Event>

    ghost function View(): State
      reads this, graph
    {
      State(graph.nodes, graph.edges, owner, readers, streams)
    }

    ghost predicate Sound()
      reads this, graph
    {
      graph.Valid() && Closed(View())
    }

    /** The maps and the graph are the replay of the callbacks so far. */
    ghost predicate Valid()
      reads this, graph
    {
      Sound() && Legal(history) && View() == Replay(history)
    }

    constructor ()
      ensures Valid() && history == [] && fresh(graph)
    {
      graph := new DependencyGraph();
      owner, readers, streams, history := map[], map[], map[], [];
    }

    /** The stream half of every callback: an edge from the stream's previous operation. */
    method LinkStream(e: Event)
      requires graph.Valid() && e.op in graph.nodes
      requires e.stream in streams ==> streams[e.stream] in graph.nodes
      modifies this`streams, graph
      ensures graph.Valid() && graph.nodes == old(graph.nodes)
      ensures graph.edges == old(graph.edges) + StreamEdges(old(View()), e) && streams == old(streams)[e.stream := e.op]
    {
      if e.stream in streams && streams[e.stream] != e.op {
        graph.AddEdge(EdgeIndex(streams[e.stream], e.op, StreamDependency));
      }
      streams := streams[e.stream := e.op];
    }

    /** The edges a write or a free draws: from the readers since the last write, or else from the owner. */
    method LinkReaders(op: nat, rs: seq<nat>)
      requires graph.Valid() && op in graph.nodes && forall r | r in rs :: r in graph.nodes
      modifies graph
      ensures graph.Valid() && graph.nodes == old(graph.nodes)
      ensures graph.edges == old(graph.edges) + set r | r in rs :: EdgeIndex(r, op, DataDependency)
    {
      for i := 0 to |rs|
        invariant graph.Valid() && graph.nodes == old(graph.nodes)
        invariant graph.edges == old(graph.edges) + set r | r in rs[..i] :: EdgeIndex(r, op, DataDependency)
      {
        assert rs[i] in rs;
        graph.AddEdge(EdgeIndex(rs[i], op, DataDependency));
        assert rs[..i + 1] == rs[..i] + [rs[i]];
      }
      assert rs[..|rs|] == rs;
    }

    /** The object half of a callback that reads, writes or frees. */
    method LinkObject(e: Event)
      requires graph.Valid() && e.op in graph.nodes && Known(View(), e) && !e.Malloc?
      requires owner[e.obj] in graph.nodes && forall r | r in readers[e.obj] :: r in graph.nodes
      modifies this`owner, this`readers, graph
      ensures graph.Valid() && graph.nodes == old(graph.nodes)
      ensures graph.edges == old(graph.edges) + DataEdges(old(View()), e)
      ensures owner == Step(old(View()), e).owner && readers == Step(old(View()), e).readers
    {
      if !e.Writes() {
        readers := readers[e.obj := readers[e.obj] + [e.op]];
        graph.AddEdge(EdgeIndex(owner[e.obj], e.op, DataDependency));
      } else {
        if readers[e.obj] == [] {
          graph.AddEdge(EdgeIndex(owner[e.obj], e.op, DataDependency));
        } else {
          LinkReaders(e.op, readers[e.obj]);
        }
        readers := readers[e.obj := []];
        owner := owner[e.obj := e.op];
      }
    }

    method Malloced(e: Event)
      requires Sound() && e.Malloc? && e.op !in graph.nodes
      modifies this`owner, this`readers, this`streams, graph
      ensures Sound() && View() == Step(old(View()), e)
    {
      ClosedStep(View(), e);
      graph.AddNode(e.op);
      LinkStream(e);
      owner := owner[e.op := e.op];
      readers := readers[e.op := []];
      StepIs(old(View()), View(), e);
    }

    /** Adds the node unless an earlier callback of the same operation did. */
    method EnsureNode(op: nat)
      requires graph.Valid()
      modifies graph
      ensures graph.Valid() && graph.nodes == old(graph.nodes) + {op} && graph.edges == old(graph.edges)
    {
      if op !in graph.nodes {
        graph.AddNode(op);
      }
      assert graph.nodes == old(graph.nodes) + {op};
    }

    method Touched(e: Event)
      requires Sound() && !e.Malloc? && Known(View(), e)
      modifies this`owner, this`readers, this`streams, graph
      ensures Sound() && View() == Step(old(View()), e)
    {
      ClosedStep(View(), e);
      EnsureNode(e.op);
      LinkStream(e);
      LinkObject(e);
      StepIs(old(View()), View(), e);
    }

    method UpdateGraphAtMalloc(op: nat, stream: nat)
      requires Valid() && Legal(history + [Malloc(op, stream)])
      modifies this, graph
      ensures Valid() && history == old(history) + [Malloc(op, stream)]
    {
      NextCallback(history, Malloc(op, stream));
      Malloced(Malloc(op, stream));
      history := history + [Malloc(op, stream)];
    }

    method UpdateGraphAtFree(op: nat, stream: nat, obj: nat)
      requires Valid() && Legal(history + [Free(op, stream, obj)])
      modifies this, graph
      ensures Valid() && history == old(history) + [Free(op, stream, obj)]
    {
      NextCallback(history, Free(op, stream, obj));
      Touched(Free(op, stream, obj));
      history := history + [Free(op, stream, obj)];
    }

    method UpdateGraphAtAccess(op: nat, stream: nat, obj: nat, access: AccessType)
      requires Valid() && Legal(history + [Access(op, stream, obj, access)])
      modifies this, graph
      ensures Valid() && history == old(history) + [Access(op, stream, obj, access)]
    {
      NextCallback(history, Access(op, stream, obj, access));
      Touched(Access(op, stream, obj, access));
      history := history + [Access(op, stream, obj, access)];
    }

    method UpdateGraphAtKernel(aux: seq<AuxEntry>, op: nat, stream: nat)
      requires Valid() && Legal(history + KernelEvents(aux, op, stream))
      modifies this, graph
      ensures Valid() && history == old(history) + KernelEvents(aux, op, stream)
    {
      for i := 0 to |aux|
        invariant Valid() && history == old(history) + KernelEvents(aux[..i], op, stream)
      {
        KernelPrefix(old(history), aux, op, stream, i + 1);
        KernelNext(old(history), aux, op, stream, i);
        if aux[i].hit && aux[i].write {
          UpdateGraphAtAccess(op, stream, aux[i].obj, WRITE);
        } else if aux[i].hit && aux[i].read {
          UpdateGraphAtAccess(op, stream, aux[i].obj, READ);
        }
      }
      assert aux[..|aux|] == aux;
    }

    /** Peeling the graph of a history in which no operation conflicts with itself. */
    method DumpTopologicalOrder() returns (levels: seq<seq<nat>>)
      requires Valid() && !SelfConflict(history)
      modifies graph
      ensures Levelled(levels, Ops(history), old(graph.edges)) && Emitted(levels, Ops(history), {})
    {
      IncreasingIff(history);
      NodesAreOps(history);
      levels := graph.TopologicalOrder();
    }
  }

  lemma KernelNext(h: seq<Event>, aux: seq<AuxEntry>, op: nat, stream: nat, i: nat)
    requires i < |aux|
    ensures h + KernelEvents(aux[..i + 1], op, stream) ==
              h + KernelEvents(aux[..i], op, stream) +
              (if aux[i].hit && aux[i].write then [Access(op, stream, aux[i].obj, WRITE)]
               else if aux[i].hit && aux[i].read then [Access(op, stream, aux[i].obj, READ)] else [])
  {
    assert aux[..i + 1][..i] == aux[..i];
  }

  lemma {:induction false} KernelPrefix(h: seq<Event>, aux: seq<AuxEntry>, op: nat, stream: nat, i: nat)
    requires i <= |aux| && Legal(h + KernelEvents(aux, op, stream))
    ensures Legal(h + KernelEvents(aux[..i], op, stream))
    decreases |aux| - i
  {
    if i == |aux| {
      assert aux[..i] == aux;
    } else {
      KernelPrefix(h, aux, op, stream, i + 1);
      assert aux[..i + 1][..i] == aux[..i];
      var longer, shorter := h + KernelEvents(aux[..i + 1], op, stream), h + KernelEvents(aux[..i], op, stream);
      LegalStart(longer, |shorter|);
      assert longer[..|shorter|] == shorter;
    }
  }

  /**
   * The peeling loop reaches an empty graph, after some number of rounds, exactly when no operation
   * of the history touches an object twice with a write among the two; otherwise it never ends.
   */
  lemma PeelingEndsIff(h: seq<Event>)
    requires Legal(h)
    ensures (exists k: nat :: AfterRounds(Replay(h).nodes, Replay(h).edges, k) == {}) <==> !SelfConflict(h)
  {
    var nodes, edges := Replay(h).nodes, Replay(h).edges;
    IncreasingIff(h);
    NodesAreOps(h);
    EdgesJustified(h);
    forall x | x in edges ensures x.from in nodes && x.to in nodes {
      assert Justified(h, x);
    }
    assert Within(nodes, edges) == edges;
    PeelingEnds(nodes, edges);
  }

  /** However many rounds the peeling loop makes, nodes are left. */
  ghost predicate NeverEmpty(s: State) { forall k: nat :: AfterRounds(s.nodes, s.edges, k) != {} }

  /**
   * Copying within one object: after any history, an operation that reads an object and then writes it
   * waits for itself, whatever the streams.
   */
  lemma CopyWithinObjectStalls(h: seq<Event>, op: nat, stream: nat, stream': nat, obj: nat)
    requires Legal(h + [Access(op, stream, obj, READ)] + [Access(op, stream', obj, WRITE)])
    ensures NeverEmpty(Replay(h + [Access(op, stream, obj, READ)] + [Access(op, stream', obj, WRITE)]))
  {
    var copy := h + [Access(op, stream, obj, READ)] + [Access(op, stream', obj, WRITE)];
    assert copy[|h|] == Access(op, stream, obj, READ) && copy[|h| + 1] == Access(op, stream', obj, WRITE);
    assert Conflict(copy, |h|, |h| + 1) && SelfConflict(copy);
    PeelingEndsIff(copy);
  }

  /** Such copies occur: an allocation, then a copy within it. */
  lemma CopyWithinObjectIsLegal(op: nat, stream: nat, obj: nat)
    requires obj < op
    ensures Legal([Malloc(obj, stream)] + [Access(op, stream, obj, READ)] + [Access(op, stream, obj, WRITE)])
  {
    var h := [Malloc(obj, stream)] + [Access(op, stream, obj, READ)] + [Access(op, stream, obj, WRITE)];
    forall j | 0 <= j < |h| && !h[j].Malloc? ensures h[j].obj in Allocated(h[..j]) {
      assert h[..j][0] == Malloc(obj, stream);
    }
  }
}
