/** Exactly which edges a history draws. */
module HazardEdges {
  import opened Paths
  import opened Hazards

  /** Callback `k` touches the object. */
  predicate On(h: seq<Event>, k: int, o: nat) { 0 <= k < |h| && h[k].Object() == o }

  /**
   * A conflict with no other hazard in between: nothing between the two writes the object, and if both write
   * it, nothing between them touches it at all.
   */
  predicate Direct(h: seq<Event>, i: int, j: int) {
    && Conflict(h, i, j)
    && forall k | i < k < j :: On(h, k, h[i].Object()) ==> !h[k].Writes() && !(h[i].Writes() && h[j].Writes())
  }

  /** What each kind of edge stands for. */
  ghost predicate Drawn(h: seq<Event>, x: EdgeIndex) {
    match x.kind
    case StreamDependency => DrawnStream(h, x.from, x.to)
    case DataDependency => DrawnData(h, x.from, x.to)
  }

  ghost predicate DrawnStream(h: seq<Event>, from: nat, to: nat) {
    exists i, j :: StreamSuccessor(h, i, j) && h[i].op == from && h[j].op == to
  }

  ghost predicate DrawnData(h: seq<Event>, from: nat, to: nat) {
    exists i, j :: Direct(h, i, j) && h[i].op == from && h[j].op == to
  }

  // ---------------------------------------------------------------- the maps

  /** Callback `w` is the last to write the object. */
  predicate LastWrite(h: seq<Event>, w: int, o: nat) {
    On(h, w, o) && h[w].Writes() && forall k | w < k < |h| :: On(h, k, o) ==> !h[k].Writes()
  }

  /** Operation `r` touched the object after callback `w`. */
  ghost predicate Since(h: seq<Event>, w: int, o: nat, r: nat) { exists k :: w < k && On(h, k, o) && h[k].op == r }

  ghost predicate MapsAt(h: seq<Event>, s: State, o: nat, w: int) {
    && o in s.owner && o in s.readers && LastWrite(h, w, o) && s.owner[o] == h[w].op
    && forall r :: r in s.readers[o] <==> Since(h, w, o, r)
  }

  ghost predicate MapsExact(h: seq<Event>, s: State) {
    forall o | o in Allocated(h) :: exists w :: MapsAt(h, s, o, w)
  }

  lemma Longer(h: seq<Event>, e: Event)
    ensures (h + [e])[|h|] == e && forall k | 0 <= k < |h| :: (h + [e])[k] == h[k]
    ensures forall k, o | k < |h| :: On(h + [e], k, o) <==> On(h, k, o)
  {
  }

  lemma SinceStep(h: seq<Event>, e: Event, w: int, o: nat, r: nat)
    requires w < |h|
    ensures Since(h + [e], w, o, r) <==> Since(h, w, o, r) || (e.Object() == o && e.op == r)
  {
    Longer(h, e);
    if Since(h, w, o, r) {
      var k :| w < k && On(h, k, o) && h[k].op == r;
      assert On(h + [e], k, o);
    }
    if e.Object() == o && e.op == r { assert On(h + [e], |h|, o); }
  }

  lemma MapsAtStep(h: seq<Event>, s: State, e: Event, o: nat, w: int)
    requires Known(s, e) && MapsAt(h, s, o, w)
    ensures MapsAt(h + [e], Step(s, e), o, if e.Writes() && e.Object() == o then |h| else w)
  {
    Longer(h, e);
    var h', s' := h + [e], Step(s, e);
    if e.Writes() && e.Object() == o {
      NewWrite(h, s, e);
    } else {
      assert LastWrite(h', w, o);
      forall r ensures r in s'.readers[o] <==> Since(h', w, o, r) { SinceStep(h, e, w, o, r); }
    }
  }

  lemma NewWrite(h: seq<Event>, s: State, e: Event)
    requires Known(s, e) && e.Writes()
    ensures MapsAt(h + [e], Step(s, e), e.Object(), |h|)
  {
    Longer(h, e);
    assert On(h + [e], |h|, e.Object());
  }

  lemma MapsExactStep(h: seq<Event>, s: State, e: Event)
    requires Known(s, e) && MapsExact(h, s)
    ensures MapsExact(h + [e], Step(s, e))
  {
    AllocatedStep(h, e);
    forall o | o in Allocated(h + [e]) ensures exists w :: MapsAt(h + [e], Step(s, e), o, w) {
      if o in Allocated(h) {
        var w :| MapsAt(h, s, o, w);
        MapsAtStep(h, s, e, o, w);
      } else {
        NewWrite(h, s, e);
      }
    }
  }

  lemma {:induction false} MapsRun(h: seq<Event>)
    requires Legal(h)
    ensures MapsExact(h, Replay(h))
    decreases |h|
  {
    if h != [] {
      LegalPrefix(h);
      var g, e := h[..|h| - 1], h[|h| - 1];
      MapsRun(g);
      ObjectsInv(g);
      ProvenanceStep(g, Replay(g), e);
      MapsExactStep(g, Replay(g), e);
    }
  }

  // ---------------------------------------------------------------- new edges

  /** With which earlier callbacks a new one conflicts directly. */
  lemma DirectLast(h: seq<Event>, e: Event, w: int, i: int)
    requires LastWrite(h, w, e.Object())
    ensures Direct(h + [e], i, |h|) <==>
            && On(h, i, e.Object())
            && if !e.Writes() then i == w
               else if exists k :: w < k && On(h, k, e.Object()) then i > w
               else i == w
  {
    var h', o := h + [e], e.Object();
    Longer(h, e);
    if On(h, i, o) {
      assert i < w ==> !Direct(h', i, |h|) by { assert On(h', w, o); }
      if k :| w < k && On(h, k, o) { assert On(h', k, o) && !h[k].Writes(); }
    }
  }

  lemma DataEdgesDirect(h: seq<Event>, s: State, e: Event, from: nat)
    requires Legal(h + [e]) && Known(s, e) && MapsExact(h, s)
    ensures EdgeIndex(from, e.op, DataDependency) in DataEdges(s, e) <==>
            exists i :: Direct(h + [e], i, |h|) && h[i].op == from
  {
    Longer(h, e);
    if e.Malloc? {
      forall i | 0 <= i < |h| ensures !Direct(h + [e], i, |h|) { FreshObject(h, e, i); }
    } else {
      LegalNext(h, e);
      var w :| MapsAt(h, s, e.obj, w);
      forall i ensures Direct(h + [e], i, |h|) <==>
            && On(h, i, e.obj)
            && if !e.Writes() then i == w else if exists k :: w < k && On(h, k, e.obj) then i > w else i == w {
        DirectLast(h, e, w, i);
      }
      ReadersOrNone(h, s, e.obj, w);
    }
  }

  lemma ReadersOrNone(h: seq<Event>, s: State, o: nat, w: int)
    requires MapsAt(h, s, o, w)
    ensures s.readers[o] != [] <==> exists k :: w < k && On(h, k, o)
  {
    if s.readers[o] != [] {
      assert s.readers[o][0] in s.readers[o];
    }
    if k :| w < k && On(h, k, o) {
      assert Since(h, w, o, h[k].op);
    }
  }

  lemma StreamEdgesLast(h: seq<Event>, s: State, e: Event, from: nat)
    requires StreamsInv(h, s)
    ensures EdgeIndex(from, e.op, StreamDependency) in StreamEdges(s, e) <==>
            exists i :: StreamSuccessor(h + [e], i, |h|) && h[i].op == from
  {
    Longer(h, e);
    if e.stream in s.streams {
      var i :| LastOnStream(h, i, e.stream, s.streams[e.stream]);
      if s.streams[e.stream] != e.op { assert StreamSuccessor(h + [e], i, |h|); }
      forall k | StreamSuccessor(h + [e], k, |h|) ensures k == i {}
    } else {
      forall i | 0 <= i < |h| ensures h[i].stream != e.stream { assert LeadsToStream(s, h[i]); }
    }
  }

  // ---------------------------------------------------------------- all edges

  /** Earlier pairs of callbacks do not notice a later one. */
  lemma EarlierPairs(h: seq<Event>, e: Event, i: int, j: int)
    requires j < |h|
    ensures Direct(h + [e], i, j) <==> Direct(h, i, j)
    ensures StreamSuccessor(h + [e], i, j) <==> StreamSuccessor(h, i, j)
  {
    Longer(h, e);
  }

  lemma DrawnDataStep(h: seq<Event>, s: State, e: Event, from: nat, to: nat)
    requires Legal(h + [e]) && Known(s, e) && MapsExact(h, s)
    ensures DrawnData(h + [e], from, to) <==>
            DrawnData(h, from, to) || (to == e.op && EdgeIndex(from, e.op, DataDependency) in DataEdges(s, e))
  {
    var h' := h + [e];
    Longer(h, e);
    DataEdgesDirect(h, s, e, from);
    if DrawnData(h, from, to) {
      var i, j :| Direct(h, i, j) && h[i].op == from && h[j].op == to;
      EarlierPairs(h, e, i, j);
      assert Direct(h', i, j);
    }
    if DrawnData(h', from, to) {
      var i, j :| Direct(h', i, j) && h'[i].op == from && h'[j].op == to;
      if j < |h| { EarlierPairs(h, e, i, j); }
    }
  }

  lemma DrawnStreamStep(h: seq<Event>, s: State, e: Event, from: nat, to: nat)
    requires StreamsInv(h, s)
    ensures DrawnStream(h + [e], from, to) <==>
            DrawnStream(h, from, to) || (to == e.op && EdgeIndex(from, e.op, StreamDependency) in StreamEdges(s, e))
  {
    var h' := h + [e];
    Longer(h, e);
    StreamEdgesLast(h, s, e, from);
    if DrawnStream(h, from, to) {
      var i, j :| StreamSuccessor(h, i, j) && h[i].op == from && h[j].op == to;
      EarlierPairs(h, e, i, j);
      assert StreamSuccessor(h', i, j);
    }
    if DrawnStream(h', from, to) {
      var i, j :| StreamSuccessor(h', i, j) && h'[i].op == from && h'[j].op == to;
      if j < |h| { EarlierPairs(h, e, i, j); }
    }
  }

  /** The edges a callback adds all lead to its operation. */
  lemma NewEdges(s: State, e: Event, x: EdgeIndex)
    requires Known(s, e)
    ensures x in StreamEdges(s, e) ==> x == EdgeIndex(x.from, e.op, StreamDependency)
    ensures x in DataEdges(s, e) ==> x == EdgeIndex(x.from, e.op, DataDependency)
  {
  }

  lemma DrawnStep(h: seq<Event>, s: State, e: Event, x: EdgeIndex)
    requires Legal(h + [e]) && Known(s, e) && MapsExact(h, s) && StreamsInv(h, s)
    requires x in s.edges <==> Drawn(h, x)
    ensures x in Step(s, e).edges <==> Drawn(h + [e], x)
  {
    NewEdges(s, e, x);
    match x.kind
    case StreamDependency => DrawnStreamStep(h, s, e, x.from, x.to);
    case DataDependency => DrawnDataStep(h, s, e, x.from, x.to);
  }

  lemma KnownNext(h: seq<Event>, e: Event)
    requires Legal(h) && Legal(h + [e])
    ensures Known(Replay(h), e)
  {
    ObjectsInv(h);
    ProvenanceStep(h, Replay(h), e);
  }

  /** The graph has an edge exactly where a callback follows another on its stream or conflicts with it directly. */
  lemma {:induction false} EdgesExact(h: seq<Event>, x: EdgeIndex)
    requires Legal(h)
    ensures x in Replay(h).edges <==> Drawn(h, x)
    decreases |h|
  {
    if h != [] {
      LegalPrefix(h);
      var g, e := h[..|h| - 1], h[|h| - 1];
      EdgesExact(g, x);
      KnownNext(g, e);
      MapsRun(g);
      StreamsRun(g);
      DrawnStep(g, Replay(g), e, x);
    }
  }
}
