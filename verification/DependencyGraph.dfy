/** Edges between operation ids, paths over them, and the two readings of "path of length k". */
module Paths {

  datatype EdgeKind = StreamDependency | DataDependency

  datatype EdgeIndex = EdgeIndex(from: nat, to: nat, kind: EdgeKind)

  predicate Linked(edges: set<EdgeIndex>, a: nat, b: nat) {
    EdgeIndex(a, b, StreamDependency) in edges || EdgeIndex(a, b, DataDependency) in edges
  }

  predicate IsPath(edges: set<EdgeIndex>, p: seq<nat>) {
    |p| >= 1 && forall i | 0 <= i < |p| - 1 :: Linked(edges, p[i], p[i + 1])
  }

  /** A path of at least one edge. */
  ghost predicate Path(edges: set<EdgeIndex>, a: nat, b: nat) {
    exists p :: |p| >= 2 && IsPath(edges, p) && p[0] == a && p[|p| - 1] == b
  }

  ghost predicate PathOrSame(edges: set<EdgeIndex>, a: nat, b: nat) { a == b || Path(edges, a, b) }

  /** Every edge goes from a smaller to a larger operation id. */
  predicate Increasing(edges: set<EdgeIndex>) { forall e | e in edges :: e.from < e.to }

  /** No node lies on a cycle. */
  ghost predicate Acyclic(edges: set<EdgeIndex>) { forall n: nat :: !Path(edges, n, n) }

  lemma PathGrows(edges: set<EdgeIndex>, more: set<EdgeIndex>, a: nat, b: nat)
    requires edges <= more
    ensures Path(edges, a, b) ==> Path(more, a, b)
  {
    if Path(edges, a, b) {
      var p :| |p| >= 2 && IsPath(edges, p) && p[0] == a && p[|p| - 1] == b;
      assert IsPath(more, p);
    }
  }

  lemma PathExtend(edges: set<EdgeIndex>, a: nat, m: nat, b: nat)
    requires PathOrSame(edges, a, m) && Linked(edges, m, b)
    ensures Path(edges, a, b)
  {
    if a == m {
      assert IsPath(edges, [a, b]);
    } else {
      var p :| |p| >= 2 && IsPath(edges, p) && p[0] == a && p[|p| - 1] == m;
      var q := p + [b];
      assert IsPath(edges, q) by {
        forall i | 0 <= i < |q| - 1 ensures Linked(edges, q[i], q[i + 1]) {
          if i < |p| - 1 { assert q[i] == p[i] && q[i + 1] == p[i + 1]; }
        }
      }
      assert q[0] == a && q[|q| - 1] == b;
    }
  }

  lemma PathsJoin(edges: set<EdgeIndex>, a: nat, m: nat, b: nat)
    requires PathOrSame(edges, a, m) && PathOrSame(edges, m, b)
    ensures PathOrSame(edges, a, b)
  {
    if a != m && m != b {
      var p :| |p| >= 2 && IsPath(edges, p) && p[0] == a && p[|p| - 1] == m;
      var q :| |q| >= 2 && IsPath(edges, q) && q[0] == m && q[|q| - 1] == b;
      var r := p + q[1..];
      forall i | 0 <= i < |r| - 1 ensures Linked(edges, r[i], r[i + 1]) {
        if i < |p| - 1 {
          assert r[i] == p[i] && r[i + 1] == p[i + 1];
        } else {
          assert r[i] == q[i - |p| + 1] && r[i + 1] == q[i - |p| + 1 + 1];
        }
      }
      assert IsPath(edges, r) && r[0] == a && r[|r| - 1] == b;
    }
  }

  /** Some path of `k` edges ends at `n`. */
  ghost predicate EndsChain(edges: set<EdgeIndex>, n: nat, k: nat)
    decreases k
  {
    k == 0 || exists m: nat :: Linked(edges, m, n) && EndsChain(edges, m, k - 1)
  }

  lemma {:induction false} ChainIsPath(edges: set<EdgeIndex>, n: nat, k: nat) returns (p: seq<nat>)
    requires EndsChain(edges, n, k)
    ensures |p| == k + 1 && IsPath(edges, p) && p[k] == n
    decreases k
  {
    p := [n];
    if k != 0 {
      var m: nat :| Linked(edges, m, n) && EndsChain(edges, m, k - 1);
      var q := ChainIsPath(edges, m, k - 1);
      p := q + [n];
      forall i | 0 <= i < |p| - 1 ensures Linked(edges, p[i], p[i + 1]) {
        if i < k - 1 { assert p[i] == q[i] && p[i + 1] == q[i + 1]; }
      }
    }
  }

  lemma {:induction false} PathIsChain(edges: set<EdgeIndex>, p: seq<nat>)
    requires IsPath(edges, p)
    ensures EndsChain(edges, p[|p| - 1], |p| - 1)
    decreases |p|
  {
    if |p| > 1 {
      var q := p[..|p| - 1];
      assert IsPath(edges, q) by {
        forall i | 0 <= i < |q| - 1 ensures Linked(edges, q[i], q[i + 1]) {
          assert Linked(edges, p[i], p[i + 1]);
        }
      }
      PathIsChain(edges, q);
      assert Linked(edges, p[|p| - 2], p[|p| - 2 + 1]);
    }
  }

  /** Chains are closed under dropping their first edge. */
  lemma {:induction false} ChainShrinks(edges: set<EdgeIndex>, n: nat, k: nat, j: nat)
    requires EndsChain(edges, n, k) && j <= k
    ensures EndsChain(edges, n, j)
    decreases k
  {
    if 0 < j {
      var m: nat :| Linked(edges, m, n) && EndsChain(edges, m, k - 1);
      ChainShrinks(edges, m, k - 1, j - 1);
    }
  }

  /** With increasing edges a chain is no longer than the id it ends at. */
  lemma {:induction false} ChainBounded(edges: set<EdgeIndex>, n: nat, k: nat)
    requires Increasing(edges) && EndsChain(edges, n, k)
    ensures k <= n
    decreases k
  {
    if k != 0 {
      var m: nat :| Linked(edges, m, n) && EndsChain(edges, m, k - 1);
      ChainBounded(edges, m, k - 1);
    }
  }

  lemma AcyclicPart(edges: set<EdgeIndex>, more: set<EdgeIndex>)
    requires edges <= more && Acyclic(more)
    ensures Acyclic(edges)
  {
    forall n: nat ensures !Path(edges, n, n) { PathGrows(edges, more, n, n); }
  }

  lemma IncreasingAcyclic(edges: set<EdgeIndex>)
    requires Increasing(edges)
    ensures Acyclic(edges)
  {
    forall n: nat ensures !Path(edges, n, n) {
      if Path(edges, n, n) {
        var p :| |p| >= 2 && IsPath(edges, p) && p[0] == n && p[|p| - 1] == n;
        CycleChains(edges, n, p, n + 1);
        ChainBounded(edges, p[0], n + 1);
      }
    }
  }

  /** A path with more nodes than there are passes some node twice. */
  lemma LongPathCycles(nodes: set<nat>, edges: set<EdgeIndex>, p: seq<nat>)
    requires IsPath(edges, p) && |p| > |nodes| && forall i | 0 <= i < |p| :: p[i] in nodes
    ensures !Acyclic(edges)
  {
    var i, j := Repeat(nodes, p);
    var q := p[i..j + 1];
    forall k | 0 <= k < |q| - 1 ensures Linked(edges, q[k], q[k + 1]) {
      var l := i + k;
      assert Linked(edges, p[l], p[l + 1]);
    }
    assert IsPath(edges, q) && q[0] == p[i] && q[|q| - 1] == p[i];
    assert Path(edges, p[i], p[i]);
  }

  lemma {:induction false} Repeat(nodes: set<nat>, p: seq<nat>) returns (i: nat, j: nat)
    requires |p| > |nodes| && forall k | 0 <= k < |p| :: p[k] in nodes
    ensures i < j < |p| && p[i] == p[j]
    decreases |p|
  {
    var last := |p| - 1;
    if k: nat :| k < last && p[k] == p[last] {
      i, j := k, last;
    } else {
      i, j := Repeat(nodes - {p[last]}, p[..last]);
    }
  }

  /** Going round a cycle gives chains of every length. */
  lemma {:induction false} CycleChains(edges: set<EdgeIndex>, n: nat, p: seq<nat>, k: nat)
    requires IsPath(edges, p) && |p| >= 2 && p[0] == n == p[|p| - 1]
    ensures forall i | 0 <= i < |p| :: EndsChain(edges, p[i], k)
  {
    if k != 0 {
      CycleChains(edges, n, p, k - 1);
      forall i | 0 <= i < |p| ensures EndsChain(edges, p[i], k) {
        var j := if i == 0 then |p| - 1 else i;
        assert Linked(edges, p[j - 1], p[j - 1 + 1]) && EndsChain(edges, p[j - 1], k - 1);
      }
    }
  }
}

/** The graph of operations (redshow/include/analysis/memory_liveness.h) and its peeling. */
module DependencyGraphs {
  import opened Paths

  /** `k` is the number of edges of the longest path that ends at `n`. */
  ghost predicate LongestPath(edges: set<EdgeIndex>, n: nat, k: nat) {
    && (exists p :: |p| == k + 1 && IsPath(edges, p) && p[|p| - 1] == n)
    && (forall p | IsPath(edges, p) && p[|p| - 1] == n :: |p| <= k + 1)
  }

  lemma LevelIsLongestPath(edges: set<EdgeIndex>, n: nat, k: nat)
    ensures LongestPath(edges, n, k) <==> EndsChain(edges, n, k) && !EndsChain(edges, n, k + 1)
  {
    if EndsChain(edges, n, k) && !EndsChain(edges, n, k + 1) {
      var q := ChainIsPath(edges, n, k);
      assert q[|q| - 1] == n;
      forall p | IsPath(edges, p) && p[|p| - 1] == n ensures |p| <= k + 1 {
        PathIsChain(edges, p);
        if |p| > k + 1 { ChainShrinks(edges, n, |p| - 1, k + 1); }
      }
    }
    if LongestPath(edges, n, k) {
      var p :| |p| == k + 1 && IsPath(edges, p) && p[|p| - 1] == n;
      PathIsChain(edges, p);
      if EndsChain(edges, n, k + 1) {
        var q := ChainIsPath(edges, n, k + 1);
      }
    }
  }

  // ---------------------------------------------------------------- peeling, round by round

  function Sources(nodes: set<nat>, edges: set<EdgeIndex>): set<nat> {
    set n | n in nodes && forall e | e in edges :: e.to != n
  }

  function Within(nodes: set<nat>, edges: set<EdgeIndex>): set<EdgeIndex> {
    set e | e in edges && e.from in nodes && e.to in nodes
  }

  /** The nodes left after `k` rounds of removing every node without incoming edges. */
  ghost function AfterRounds(nodes: set<nat>, edges: set<EdgeIndex>, k: nat): set<nat> {
    if k == 0 then nodes
    else
      var left := AfterRounds(nodes, edges, k - 1);
      left - Sources(left, Within(left, edges))
  }

  /** A node survives `k` rounds exactly when some path of `k` edges ends at it. */
  lemma {:induction false} RoundsAreChains(nodes: set<nat>, edges: set<EdgeIndex>, k: nat)
    requires Within(nodes, edges) == edges
    ensures forall n | n in nodes :: n in AfterRounds(nodes, edges, k) <==> EndsChain(edges, n, k)
    ensures AfterRounds(nodes, edges, k) <= nodes
  {
    if k != 0 {
      RoundsAreChains(nodes, edges, k - 1);
      var left := AfterRounds(nodes, edges, k - 1);
      forall n | n in nodes ensures n in AfterRounds(nodes, edges, k) <==> EndsChain(edges, n, k) {
        if n in AfterRounds(nodes, edges, k) {
          var e :| e in Within(left, edges) && e.to == n;
          assert e.kind == StreamDependency || e.kind == DataDependency;
          assert Linked(edges, e.from, n);
        }
        if EndsChain(edges, n, k) {
          var m: nat :| Linked(edges, m, n) && EndsChain(edges, m, k - 1);
          var e := if EdgeIndex(m, n, StreamDependency) in edges then EdgeIndex(m, n, StreamDependency)
                   else EdgeIndex(m, n, DataDependency);
          assert e in Within(nodes, edges);
          ChainShrinks(edges, n, k, k - 1);
          assert e in Within(left, edges);
        }
      }
    }
  }

  /** A path that ends at a node stays inside the graph. */
  lemma PathInside(nodes: set<nat>, edges: set<EdgeIndex>, p: seq<nat>)
    requires Within(nodes, edges) == edges && IsPath(edges, p) && p[|p| - 1] in nodes
    ensures forall i | 0 <= i < |p| :: p[i] in nodes
  {
    forall i | 0 <= i < |p| ensures p[i] in nodes {
      if i < |p| - 1 {
        assert Linked(edges, p[i], p[i + 1]);
        assert forall e | e in edges :: e in Within(nodes, edges);
      }
    }
  }

  /** Without cycles no path has as many edges as there are nodes. */
  lemma ChainsEnd(nodes: set<nat>, edges: set<EdgeIndex>, n: nat)
    requires Within(nodes, edges) == edges && Acyclic(edges) && n in nodes
    ensures !EndsChain(edges, n, |nodes|)
  {
    if EndsChain(edges, n, |nodes|) {
      var p := ChainIsPath(edges, n, |nodes|);
      PathInside(nodes, edges, p);
      LongPathCycles(nodes, edges, p);
    }
  }

  /** Peeling empties the graph after some number of rounds if and only if no node lies on a cycle. */
  lemma PeelingEnds(nodes: set<nat>, edges: set<EdgeIndex>)
    requires Within(nodes, edges) == edges
    ensures (exists k: nat :: AfterRounds(nodes, edges, k) == {}) <==> Acyclic(edges)
    ensures Acyclic(edges) ==> AfterRounds(nodes, edges, |nodes|) == {}
  {
    if Acyclic(edges) {
      RoundsAreChains(nodes, edges, |nodes|);
      forall n | n in nodes ensures n !in AfterRounds(nodes, edges, |nodes|) { ChainsEnd(nodes, edges, n); }
      assert AfterRounds(nodes, edges, |nodes|) == {};
    } else {
      var n: nat :| Path(edges, n, n);
      forall k: nat ensures AfterRounds(nodes, edges, k) != {} { CycleStays(nodes, edges, n, k); }
    }
  }

  lemma CycleStays(nodes: set<nat>, edges: set<EdgeIndex>, n: nat, k: nat)
    requires Within(nodes, edges) == edges && Path(edges, n, n)
    ensures n in AfterRounds(nodes, edges, k)
  {
    var p :| |p| >= 2 && IsPath(edges, p) && p[0] == n && p[|p| - 1] == n;
    assert Linked(edges, p[0], p[0 + 1]);
    assert forall e | e in edges :: e in Within(nodes, edges);
    RoundsAreChains(nodes, edges, k);
    CycleChains(edges, n, p, k);
    assert EndsChain(edges, p[0], k);
  }

  // ---------------------------------------------------------------- adjacency

  predicate Distinct(s: seq<nat>) { forall i, j | 0 <= i < j < |s| :: s[i] != s[j] }

  function EdgesInto(edges: set<EdgeIndex>, n: nat): set<EdgeIndex> { set e | e in edges && e.to == n }

  function EdgesOutOf(edges: set<EdgeIndex>, n: nat): set<EdgeIndex> { set e | e in edges && e.from == n }

  type Adjacency = map<nat, set<EdgeIndex>>

  ghost predicate Consistent(nodes: set<nat>, edges: set<EdgeIndex>, incoming: Adjacency, outgoing: Adjacency) {
    && incoming.Keys == nodes && outgoing.Keys == nodes
    && (forall e | e in edges :: e.from in nodes && e.to in nodes)
    && (forall n | n in nodes :: incoming[n] == EdgesInto(edges, n))
    && (forall n | n in nodes :: outgoing[n] == EdgesOutOf(edges, n))
  }

  lemma ConsistentMore(nodes: set<nat>, edges: set<EdgeIndex>, incoming: Adjacency, outgoing: Adjacency, e: EdgeIndex)
    requires Consistent(nodes, edges, incoming, outgoing) && e.from in nodes && e.to in nodes
    ensures Consistent(nodes, edges + {e}, incoming[e.to := incoming[e.to] + {e}],
                       outgoing[e.from := outgoing[e.from] + {e}])
  {
    forall n
      ensures EdgesInto(edges + {e}, n) == if n == e.to then EdgesInto(edges, n) + {e} else EdgesInto(edges, n)
    {}
    forall n
      ensures EdgesOutOf(edges + {e}, n) == if n == e.from then EdgesOutOf(edges, n) + {e} else EdgesOutOf(edges, n)
    {}
  }

  lemma ConsistentLess(nodes: set<nat>, edges: set<EdgeIndex>, incoming: Adjacency, outgoing: Adjacency, e: EdgeIndex)
    requires Consistent(nodes, edges, incoming, outgoing) && e.from in nodes && e.to in nodes
    ensures Consistent(nodes, edges - {e}, incoming[e.to := incoming[e.to] - {e}],
                       outgoing[e.from := outgoing[e.from] - {e}])
  {
    forall n
      ensures EdgesInto(edges - {e}, n) == if n == e.to then EdgesInto(edges, n) - {e} else EdgesInto(edges, n)
    {}
    forall n
      ensures EdgesOutOf(edges - {e}, n) == if n == e.from then EdgesOutOf(edges, n) - {e} else EdgesOutOf(edges, n)
    {}
  }

  // ---------------------------------------------------------------- levels

  /** Every emitted node sits at the level of its longest incoming path, and once. */
  ghost predicate Levelled(levels: seq<seq<nat>>, nodes: set<nat>, edges: set<EdgeIndex>) {
    && (forall k, n | 0 <= k < |levels| && n in levels[k] :: n in nodes && LongestPath(edges, n, k))
    && (forall k | 0 <= k < |levels| :: Distinct(levels[k]))
  }

  /** Longest-path levels are unique, so a levelled list repeats no node across levels either. */
  lemma LevelledOnce(levels: seq<seq<nat>>, nodes: set<nat>, edges: set<EdgeIndex>, n: nat, k: nat, l: nat)
    requires Levelled(levels, nodes, edges) && k < |levels| && l < |levels| && n in levels[k] && n in levels[l]
    ensures k == l
  {
    LevelIsLongestPath(edges, n, k);
    LevelIsLongestPath(edges, n, l);
  }

  lemma RoundLevels(levels: seq<seq<nat>>, nodes0: set<nat>, edges0: set<EdgeIndex>, nodes: set<nat>, sources: seq<nat>)
    requires Within(nodes0, edges0) == edges0 && Levelled(levels, nodes0, edges0) && Distinct(sources)
    requires nodes == AfterRounds(nodes0, edges0, |levels|)
    requires (set n | n in sources) == Sources(nodes, Within(nodes, edges0))
    ensures Levelled(levels + [sources], nodes0, edges0)
  {
    forall n | n in sources ensures n in nodes0 && LongestPath(edges0, n, |levels|) {
      assert n in Sources(nodes, Within(nodes, edges0)) && n !in AfterRounds(nodes0, edges0, |levels| + 1);
      RoundsAreChains(nodes0, edges0, |levels|);
      RoundsAreChains(nodes0, edges0, |levels| + 1);
      LevelIsLongestPath(edges0, n, |levels|);
    }
  }

  /** Every node outside `left` has been emitted. */
  ghost predicate Emitted(levels: seq<seq<nat>>, nodes: set<nat>, left: set<nat>) {
    forall n | n in nodes :: n in left || exists k :: 0 <= k < |levels| && n in levels[k]
  }

  lemma EmittedMore(levels: seq<seq<nat>>, nodes: set<nat>, left: set<nat>, sources: seq<nat>)
    requires Emitted(levels, nodes, left)
    ensures Emitted(levels + [sources], nodes, left - (set n | n in sources))
  {
    var levels' := levels + [sources];
    assert levels'[|levels|] == sources;
    forall n | n in nodes && n !in left ensures exists k :: 0 <= k < |levels'| && n in levels'[k] {
      var k :| 0 <= k < |levels| && n in levels[k];
      assert n in levels'[k];
    }
  }

  /** What the peeling loop has established after emitting `levels`. */
  ghost predicate Peeled(levels: seq<seq<nat>>, nodes0: set<nat>, edges0: set<EdgeIndex>, nodes: set<nat>,
                         edges: set<EdgeIndex>)
  {
    && Within(nodes0, edges0) == edges0
    && nodes == AfterRounds(nodes0, edges0, |levels|) && edges == Within(nodes, edges0)
    && Levelled(levels, nodes0, edges0) && Emitted(levels, nodes0, nodes)
  }

  lemma PeeledMore(levels: seq<seq<nat>>, nodes0: set<nat>, edges0: set<EdgeIndex>, nodes: set<nat>,
                   edges: set<EdgeIndex>, sources: seq<nat>)
    requires Peeled(levels, nodes0, edges0, nodes, edges)
    requires (set n | n in sources) == Sources(nodes, edges) && Distinct(sources)
    ensures var left := nodes - Sources(nodes, edges);
            Peeled(levels + [sources], nodes0, edges0, left, Within(left, edges))
  {
    EmittedMore(levels, nodes0, nodes, sources);
    RoundLevels(levels, nodes0, edges0, nodes, sources);
    WithinTwice(nodes - Sources(nodes, edges), nodes, edges0);
  }

  lemma WithinTwice(a: set<nat>, b: set<nat>, edges: set<EdgeIndex>)
    requires a <= b
    ensures Within(a, Within(b, edges)) == Within(a, edges)
  {
  }

  /** If every node has an incoming edge, paths of every length end everywhere. */
  lemma {:induction false} SourcelessChains(nodes: set<nat>, edges: set<EdgeIndex>, k: nat)
    requires Within(nodes, edges) == edges && Sources(nodes, edges) == {}
    ensures forall n | n in nodes :: EndsChain(edges, n, k)
  {
    if k != 0 {
      SourcelessChains(nodes, edges, k - 1);
      forall n | n in nodes ensures EndsChain(edges, n, k) {
        assert n !in Sources(nodes, edges);
        var e :| e in edges && e.to == n;
        assert e in Within(nodes, edges);
        assert e.kind == StreamDependency || e.kind == DataDependency;
        assert Linked(edges, e.from, n);
      }
    }
  }

  /** Without cycles every round removes something. */
  lemma PeelingShrinks(nodes: set<nat>, edges: set<EdgeIndex>)
    requires nodes != {} && Acyclic(edges) && Within(nodes, edges) == edges
    ensures |nodes - Sources(nodes, edges)| < |nodes|
  {
    if Sources(nodes, edges) == {} {
      SourcelessChains(nodes, edges, |nodes|);
      var n :| n in nodes;
      ChainsEnd(nodes, edges, n);
    }
    Fewer(nodes - Sources(nodes, edges), nodes);
  }

  lemma {:induction false} Fewer(a: set<nat>, b: set<nat>)
    requires a < b
    ensures |a| < |b|
  {
    var x :| x in b && x !in a;
    if a != {} {
      var y :| y in a;
      Fewer(a - {y}, b - {y});
    }
  }

  // ---------------------------------------------------------------- the class

  class DependencyGraph {
    var nodes: set<nat>
    var edges: set<EdgeIndex>
    var incoming: map<nat, set<EdgeIndex>>
    var outgoing: map<nat, set<EdgeIndex>>

    /** Both adjacency maps list exactly the edges at each node, and no edge dangles. */
    ghost predicate Valid()
      reads this
    {
      Consistent(nodes, edges, incoming, outgoing)
    }

    constructor ()
      ensures Valid() && nodes == {} && edges == {}
    {
      nodes, edges, incoming, outgoing := {}, {}, map[], map[];
    }

    method AddNode(n: nat)
      requires Valid() && n !in nodes
      modifies this
      ensures Valid() && nodes == old(nodes) + {n} && edges == old(edges)
    {
      assert EdgesInto(edges, n) == {} && EdgesOutOf(edges, n) == {};
      nodes := nodes + {n};
      incoming := incoming[n := {}];
      outgoing := outgoing[n := {}];
    }

    method AddEdge(e: EdgeIndex)
      requires Valid() && e.from in nodes && e.to in nodes
      modifies this
      ensures Valid() && nodes == old(nodes) && edges == old(edges) + {e}
    {
      ConsistentMore(nodes, edges, incoming, outgoing, e);
      edges := edges + {e};
      incoming := incoming[e.to := incoming[e.to] + {e}];
      outgoing := outgoing[e.from := outgoing[e.from] + {e}];
    }

    method RemoveEdge(e: EdgeIndex)
      requires Valid() && e.from in nodes && e.to in nodes
      modifies this
      ensures Valid() && nodes == old(nodes) && edges == old(edges) - {e}
    {
      ConsistentLess(nodes, edges, incoming, outgoing, e);
      incoming := incoming[e.to := incoming[e.to] - {e}];
      outgoing := outgoing[e.from := outgoing[e.from] - {e}];
      edges := edges - {e};
    }

    method RemoveNode(n: nat)
      requires Valid() && n in nodes
      modifies this
      ensures Valid() && nodes == old(nodes) - {n}
      ensures edges == Within(nodes, old(edges))
    {
      Isolate(n);
      incoming := incoming - {n};
      outgoing := outgoing - {n};
      nodes := nodes - {n};
    }

    /** The edge-removal loops of RemoveNode; a self-edge is in both lists and is removed once. */
    method Isolate(n: nat)
      requires Valid() && n in nodes
      modifies this
      ensures Valid() && nodes == old(nodes)
      ensures edges == Within(nodes - {n}, old(edges))
    {
      var left := incoming[n] + outgoing[n];
      ghost var all := left;
      assert Within(nodes - {n}, edges) == edges - all;
      while left != {}
        invariant Valid() && nodes == old(nodes)
        invariant left <= all && edges == old(edges) - (all - left)
        decreases left
      {
        var e :| e in left;
        assert e in edges;
        RemoveEdge(e);
        left := left - {e};
      }
    }

    method NoInedgeNodes() returns (r: seq<nat>)
      requires Valid()
      ensures (set n | n in r) == Sources(nodes, edges)
      ensures Distinct(r)
    {
      r := [];
      var left := nodes;
      while left != {}
        invariant left <= nodes
        invariant forall n :: n in r <==> n in nodes - left && n in Sources(nodes, edges)
        invariant Distinct(r)
        decreases left
      {
        var n :| n in left;
        assert n in Sources(nodes, edges) <==> EdgesInto(edges, n) == {} by {
          assert forall e | e in edges && e.to == n :: e in EdgesInto(edges, n);
        }
        if incoming[n] == {} { r := r + [n]; }
        left := left - {n};
      }
    }

    /** One turn of the peeling loop. */
    method PeelRound() returns (sources: seq<nat>)
      requires Valid() && Acyclic(edges) && nodes != {}
      modifies this
      ensures Valid() && |nodes| < |old(nodes)|
      ensures (set n | n in sources) == Sources(old(nodes), old(edges)) && Distinct(sources)
      ensures nodes == old(nodes) - Sources(old(nodes), old(edges)) && edges == Within(nodes, old(edges))
    {
      sources := NoInedgeNodes();
      assert Within(nodes, edges) == edges;
      PeelingShrinks(nodes, edges);
      assert Sources(nodes, edges) <= nodes;
      RemoveAll(sources);
    }

    /**
     * Level-by-level peeling: terminates on every graph without cycles, empties the graph, emits every node
     * exactly once, and puts it at the level of its longest incoming path.
     */
    method TopologicalOrder() returns (levels: seq<seq<nat>>)
      requires Valid() && Acyclic(edges)
      modifies this
      ensures Valid() && nodes == {}
      ensures Levelled(levels, old(nodes), old(edges))
      ensures Emitted(levels, old(nodes), {})
    {
      levels := [];
      ghost var nodes0, edges0 := nodes, edges;
      assert Within(nodes0, edges0) == edges0;
      while nodes != {}
        invariant Valid() && edges <= edges0 && Peeled(levels, nodes0, edges0, nodes, edges)
        decreases |nodes|
      {
        ghost var before, within := nodes, edges;
        AcyclicPart(edges, edges0);
        var sources := PeelRound();
        PeeledMore(levels, nodes0, edges0, before, within, sources);
        levels := levels + [sources];
      }
    }

    method RemoveAll(ns: seq<nat>)
      requires Valid() && (set n | n in ns) <= nodes && Distinct(ns)
      modifies this
      ensures Valid() && nodes == old(nodes) - (set n | n in ns) && edges == Within(nodes, old(edges))
    {
      for i := 0 to |ns|
        invariant Valid() && nodes == old(nodes) - (set n | n in ns[..i]) && edges == Within(nodes, old(edges))
      {
        RemoveNode(ns[i]);
      }
    }
  }
}
