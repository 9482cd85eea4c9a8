/** How instructions access memory, inferred along data dependences (redshow/src/binutils/instruction.cpp). */
module AccessKinds {
  import opened Common
  import opened OpNames
  import opened Evidence

  datatype Instruction = Instruction(op: string, dsts: seq<int>, srcs: seq<int>)

  /** How many registers hold the address. */
  function AddressRegisters(op: string): nat { if Has(op, ".SHARED") || Has(op, ".LOCAL") then 1 else 2 }

  /** `user` takes registers that `inst` loads as its address. */
  predicate UsedAsAddress(inst: Instruction, user: Instruction)
    requires |user.srcs| >= AddressRegisters(user.op)
  {
    exists i | 0 <= i < AddressRegisters(user.op) :: user.srcs[i] in inst.dsts
  }

  /** A load whose result is used as an address is an integer of the address width. */
  function AsAddress(k: AccessKind, inst: Instruction, user: Instruction): (r: AccessKind)
    requires |user.srcs| >= AddressRegisters(user.op)
    ensures r == if UsedAsAddress(inst, user) then Filled(k, 32 * AddressRegisters(user.op), Integer) else k
  {
    if AddressRegisters(user.op) == 1 then
      if user.srcs[0] in inst.dsts then assert UsedAsAddress(inst, user); Filled(k, 32, Integer) else k
    else
      if user.srcs[0] in inst.dsts || user.srcs[1] in inst.dsts then
        assert UsedAsAddress(inst, user);
        Filled(k, 64, Integer)
      else k
  }

  function Defaulted(k: AccessKind, op: string, dataType: DataType): AccessKind {
    var vec := if k.vecSize == 0 then VecOf(op) else k.vecSize;
    Filled(AccessKind(vec, k.unitSize, k.dataType), Min(32, vec), dataType)
  }

  /** Something a search can find out. */
  datatype Fact = Unit(size: nat) | Type(dataType: DataType)

  class InstructionGraph {
    const nodes: map<nat, Instruction>
    const incoming: map<nat, seq<nat>>
    const outgoing: map<nat, seq<nat>>
    const defaultType: DataType
    var kinds: map<nat, AccessKind>

    /** Edges join instructions of the graph, and memory instructions name their address registers. */
    ghost predicate WellFormed() {
      && (forall p | p in incoming :: forall i | 0 <= i < |incoming[p]| :: incoming[p][i] in nodes)
      && (forall p | p in outgoing :: forall i | 0 <= i < |outgoing[p]| :: outgoing[p][i] in nodes)
      && forall p | p in nodes :: Addressed(p)
    }

    predicate Addressed(p: nat)
      requires p in nodes
    {
      IsMemory(p) ==> |nodes[p].srcs| >= AddressRegisters(nodes[p].op)
    }

    predicate IsMemory(p: nat)
      requires p in nodes
    {
      Has(nodes[p].op, "MEMORY")
    }

    predicate Moves(p: nat) { p in nodes && Has(nodes[p].op, "MOVE") }

    /** The neighbours in the direction of the search, in edge order. */
    function Next(p: nat, load: bool): seq<nat> {
      if load then if p in outgoing then outgoing[p] else []
      else if p in incoming then incoming[p] else []
    }

    /** The neighbour is asked in turn: a move passes the search on, a supplier of a store has a kind of its own. */
    predicate Asked(next: nat, load: bool)
      requires next in nodes
    {
      Moves(next) || (IsMemory(next) && !load)
    }

    /** The width the instruction's name gives, a unit of 8 to 64 bits, and a type if there is a default. */
    predicate Settled(p: nat, k: AccessKind)
      requires p in nodes
    {
      && k.vecSize == VecOf(nodes[p].op)
      && UnitOrNone(k.unitSize) && k.unitSize != 0
      && (k.dataType.Unknown? ==> defaultType.Unknown?)
    }

    /** What a search may return: nothing yet, or the width of the instruction and possibly more. */
    predicate Searched(p: nat, k: AccessKind)
      requires p in nodes
    {
      k == UNDETERMINED || (k.vecSize == VecOf(nodes[p].op) && UnitOrNone(k.unitSize))
    }

    lemma DefaultSettles(p: nat, k: AccessKind)
      requires p in nodes && Searched(p, k)
      ensures Settled(p, Defaulted(k, nodes[p].op, defaultType))
    {
    }

    // -------------------------------------------------------------- one edge away

    /** What the neighbour says about `pc`, given what it answers if it is asked. */
    function Says(pc: nat, next: nat, load: bool, answer: AccessKind): (s: Said)
      requires pc in nodes && next in nodes && Addressed(next)
      ensures s.decides ==> !s.dataType.Unknown?
      ensures UnitOrNone(answer.unitSize) ==> UnitOrNone(s.unit)
    {
      var told := UnitFrom(nodes[next].op, VecOf(nodes[pc].op), load);
      if Asked(next, load) then Said(if told != 0 then told else answer.unitSize, answer.dataType, false)
      else if IsMemory(next) then
        if UsedAsAddress(nodes[pc], nodes[next]) then
          Said(if told != 0 then told else 32 * AddressRegisters(nodes[next].op), Integer, false)
        else Said(told, Unknown, false)
      else Said(told, TypeFrom(Unknown, nodes[next].op, load), Decides(nodes[next].op))
    }

    /** What it says without being asked. */
    function SaysAlone(pc: nat, next: nat, load: bool): Said
      requires pc in nodes && next in nodes && Addressed(next)
    {
      Says(pc, next, load, UNDETERMINED)
    }

    /** Loaded registers that address shared or local memory are a 32-bit integer, any others a 64-bit one. */
    lemma AddressTold(pc: nat, next: nat)
      requires pc in nodes && next in nodes && Addressed(next) && IsMemory(next) && !Moves(next)
      requires UnitFrom(nodes[next].op, VecOf(nodes[pc].op), true) == 0
      ensures var near := Has(nodes[next].op, ".SHARED") || Has(nodes[next].op, ".LOCAL");
              var used := nodes[next].srcs[0] in nodes[pc].dsts || (!near && nodes[next].srcs[1] in nodes[pc].dsts);
              SaysAlone(pc, next, true) ==
                if used then Said(if near then 32 else 64, Integer, false) else Said(0, Unknown, false)
    {
      var inst, user := nodes[pc], nodes[next];
      if user.srcs[0] in inst.dsts { assert UsedAsAddress(inst, user); }
      if AddressRegisters(user.op) == 2 && user.srcs[1] in inst.dsts { assert UsedAsAddress(inst, user); }
    }

    function Own(pc: nat): DataType
      requires pc in nodes
    {
      if Has(nodes[pc].op, "UNIFORM") then Integer else Unknown
    }

    /** What the first neighbours say, as many as there are answers. */
    function Statements(pc: nat, load: bool, answers: seq<AccessKind>): (s: seq<Said>)
      requires pc in nodes && |answers| <= |Next(pc, load)|
      requires forall i | 0 <= i < |answers| :: Next(pc, load)[i] in nodes && Addressed(Next(pc, load)[i])
      ensures |s| == |answers| && Sane(s)
    {
      seq(|answers|, i requires 0 <= i < |answers| => Says(pc, Next(pc, load)[i], load, answers[i]))
    }

    ghost predicate ExplainedBy(pc: nat, load: bool, k: AccessKind, answers: seq<AccessKind>)
      requires WellFormed()
    {
      && pc in nodes && k.vecSize == VecOf(nodes[pc].op) && |answers| <= |Next(pc, load)|
      && Verdict(Own(pc), Statements(pc, load, answers), k)
      && (|answers| < |Next(pc, load)| ==> Enough(Own(pc), Statements(pc, load, answers)))
    }

    /** The kind is the verdict on all neighbours, or on as many of them as were enough. */
    ghost predicate Explained(pc: nat, load: bool, k: AccessKind)
      requires WellFormed()
    {
      exists answers :: ExplainedBy(pc, load, k, answers)
    }

    /** What all neighbours say alone, and which of them are asked. */
    function Alone(pc: nat, load: bool): (s: seq<Said>)
      requires pc in nodes
      requires forall i | 0 <= i < |Next(pc, load)| :: Next(pc, load)[i] in nodes && Addressed(Next(pc, load)[i])
      ensures |s| == |Next(pc, load)|
    {
      seq(|Next(pc, load)|, i requires 0 <= i < |Next(pc, load)| => SaysAlone(pc, Next(pc, load)[i], load))
    }

    function AllAsked(pc: nat, load: bool): (s: seq<bool>)
      requires forall i | 0 <= i < |Next(pc, load)| :: Next(pc, load)[i] in nodes
      ensures |s| == |Next(pc, load)|
    {
      seq(|Next(pc, load)|, i requires 0 <= i < |Next(pc, load)| => Asked(Next(pc, load)[i], load))
    }

    /** Nothing one edge away is missed. */
    lemma NothingMissed(pc: nat, load: bool, k: AccessKind)
      requires WellFormed() && pc in nodes && Explained(pc, load, k)
      ensures k.unitSize == 0 ==> forall i | 0 <= i < |Next(pc, load)| :: Alone(pc, load)[i].unit == 0
      ensures k.dataType.Unknown? ==> Own(pc).Unknown?
      ensures k.dataType.Unknown? ==> forall i | 0 <= i < |Next(pc, load)| :: Alone(pc, load)[i].dataType.Unknown?
      ensures forall i | FirstToTell(Alone(pc, load), AllAsked(pc, load), i) :: k.unitSize == Alone(pc, load)[i].unit
    {
      var answers :| ExplainedBy(pc, load, k, answers);
      var says, alone, asked := Statements(pc, load, answers), Alone(pc, load), AllAsked(pc, load);
      forall i | 0 <= i < |says| ensures Amends(alone[i], asked[i], says[i]) {
        SaysAmends(pc, Next(pc, load)[i], load, answers[i]);
      }
      UnknownMeans(Own(pc), alone, asked, says, k);
      forall i | FirstToTell(alone, asked, i) ensures k.unitSize == alone[i].unit {
        FirstTold(Own(pc), alone, asked, says, k, i);
      }
    }

    lemma SaysAmends(pc: nat, next: nat, load: bool, answer: AccessKind)
      requires pc in nodes && next in nodes && Addressed(next)
      ensures Amends(SaysAlone(pc, next, load), Asked(next, load), Says(pc, next, load, answer))
    {
    }

    // -------------------------------------------------------------- where a unit or a type can come from

    predicate Edge(pc: nat, next: nat, load: bool) { next in Next(pc, load) }

    /** What the neighbour alone says, as facts. */
    predicate Tells(pc: nat, next: nat, load: bool, f: Fact)
      requires pc in nodes && next in nodes && Addressed(next)
    {
      match f
      case Unit(n) => n != 0 && SaysAlone(pc, next, load).unit == n
      case Type(t) => !t.Unknown? && SaysAlone(pc, next, load).dataType == t
    }

    /** A memory instruction that supplies the value of a store. */
    predicate Supplies(next: nat, load: bool) { next in nodes && IsMemory(next) && !Moves(next) && !load }

    /**
     * Within `k` edges: the instruction's own name or a neighbour tells; or it passes through a move; or, for
     * a store, it is what a memory instruction that supplies the value has, by search or by default.
     */
    ghost predicate Derives(pc: nat, load: bool, f: Fact, k: nat)
      decreases k
    {
      && pc in nodes && k > 0
      && (|| (f == Type(Integer) && Has(nodes[pc].op, "UNIFORM"))
          || (exists next :: Edge(pc, next, load) && next in nodes && Addressed(next) && Tells(pc, next, load, f))
          || (exists next: nat :: Edge(pc, next, load) && Moves(next) && Derives(next, load, f, k - 1))
          || (exists next: nat ::
                && Edge(pc, next, load) && Supplies(next, load)
                && (Default(next, f) || Derives(next, true, f, k - 1) || Derives(next, false, f, k - 1))))
    }

    predicate Default(p: nat, f: Fact)
      requires p in nodes
    {
      f == Unit(Min(32, VecOf(nodes[p].op))) || f == Type(defaultType)
    }

    ghost predicate Derivable(pc: nat, load: bool, f: Fact) { exists k: nat :: Derives(pc, load, f, k) }

    /** All a search has found out is derivable in its direction. */
    ghost predicate Backed(pc: nat, load: bool, k: AccessKind) {
      && (k.unitSize != 0 ==> Derivable(pc, load, Unit(k.unitSize)))
      && (!k.dataType.Unknown? ==> Derivable(pc, load, Type(k.dataType)))
    }

    /** A recorded fact is derivable, forwards or backwards, or a default. */
    ghost predicate Owned(p: nat, f: Fact) {
      p in nodes && (Default(p, f) || Derivable(p, true, f) || Derivable(p, false, f))
    }

    ghost predicate KindOwned(p: nat, k: AccessKind) {
      && (k.unitSize != 0 ==> Owned(p, Unit(k.unitSize)))
      && (!k.dataType.Unknown? ==> Owned(p, Type(k.dataType)))
    }

    lemma OwnBacked(pc: nat, load: bool, vec: nat)
      requires pc in nodes
      ensures Backed(pc, load, AccessKind(vec, 0, Own(pc)))
    {
      if Has(nodes[pc].op, "UNIFORM") { assert Derives(pc, load, Type(Integer), 1); }
    }

    lemma ByMove(pc: nat, next: nat, load: bool, k: AccessKind)
      requires pc in nodes && Edge(pc, next, load) && Moves(next) && Backed(next, load, k)
      ensures Backed(pc, load, k)
    {
      forall f | Derivable(next, load, f) ensures Derivable(pc, load, f) {
        var n: nat :| Derives(next, load, f, n);
        assert Derives(pc, load, f, n + 1);
      }
    }

    lemma BySupplier(pc: nat, next: nat, k: AccessKind)
      requires pc in nodes && Edge(pc, next, false) && Supplies(next, false) && KindOwned(next, k)
      ensures Backed(pc, false, k)
    {
      forall f | Owned(next, f) ensures Derivable(pc, false, f) {
        if Default(next, f) {
          assert Derives(pc, false, f, 1);
        } else {
          var dir := Derivable(next, true, f);
          var n: nat :| Derives(next, dir, f, n);
          assert Derives(pc, false, f, n + 1);
        }
      }
    }

    /** What a neighbour says alone is derivable. */
    lemma AloneBacked(pc: nat, next: nat, load: bool)
      requires pc in nodes && next in nodes && Addressed(next) && Edge(pc, next, load)
      ensures var s := SaysAlone(pc, next, load); Backed(pc, load, AccessKind(0, s.unit, s.dataType))
    {
      forall f | Tells(pc, next, load, f) ensures Derivable(pc, load, f) { assert Derives(pc, load, f, 1); }
    }

    /** And so is what it says when its answer is. */
    lemma CombinedBacked(pc: nat, next: nat, load: bool, k: AccessKind, answer: AccessKind)
      requires pc in nodes && next in nodes && Addressed(next) && Edge(pc, next, load)
      requires Backed(pc, load, k) && (Asked(next, load) ==> Backed(pc, load, answer))
      ensures Backed(pc, load, Combined(k, Says(pc, next, load, answer)))
    {
      AloneBacked(pc, next, load);
      SaysAmends(pc, next, load, answer);
    }

    lemma DefaultOwned(p: nat, load: bool, k: AccessKind)
      requires p in nodes && Searched(p, k) && Backed(p, load, k)
      ensures KindOwned(p, Defaulted(k, nodes[p].op, defaultType))
    {
    }

    // -------------------------------------------------------------- everything reached through moves

    /** The edge yields no unit, leads to no unvisited move, and to no supplier but the root. */
    predicate UnitlessEdge(p: nat, next: nat, load: bool, root: nat, visited: set<nat>) {
      && p in nodes && next in nodes && Addressed(next) && SaysAlone(p, next, load).unit == 0
      && (Moves(next) ==> next in visited) && (Supplies(next, load) ==> next == root)
    }

    predicate TypelessEdge(p: nat, next: nat, load: bool, root: nat, visited: set<nat>) {
      && p in nodes && next in nodes && Addressed(next) && SaysAlone(p, next, load).dataType.Unknown?
      && (Moves(next) ==> next in visited) && (Supplies(next, load) ==> next == root)
    }

    predicate Unitless(p: nat, load: bool, root: nat, visited: set<nat>) {
      forall next {:trigger UnitlessEdge(p, next, load, root, visited)} | next in Next(p, load) ::
        UnitlessEdge(p, next, load, root, visited)
    }

    predicate Typeless(p: nat, load: bool, root: nat, visited: set<nat>) {
      && p in nodes && Own(p).Unknown?
      && forall next {:trigger TypelessEdge(p, next, load, root, visited)} | next in Next(p, load) ::
           TypelessEdge(p, next, load, root, visited)
    }

    /** The search was thorough: what it could not find is told by none of the newly visited instructions. */
    predicate UnitThorough(k: AccessKind, load: bool, root: nat, found: set<nat>, visited: set<nat>) {
      k.unitSize == 0 ==> forall p {:trigger Unitless(p, load, root, visited)} | p in found ::
        Unitless(p, load, root, visited)
    }

    predicate TypeThorough(k: AccessKind, load: bool, root: nat, found: set<nat>, visited: set<nat>) {
      k.dataType.Unknown? && (load || !defaultType.Unknown?) ==>
        forall p {:trigger Typeless(p, load, root, visited)} | p in found :: Typeless(p, load, root, visited)
    }

    lemma UnitlessMore(p: nat, load: bool, root: nat, visited: set<nat>, more: set<nat>)
      requires visited <= more
      ensures Unitless(p, load, root, visited) ==> Unitless(p, load, root, more)
      ensures Typeless(p, load, root, visited) ==> Typeless(p, load, root, more)
    {
      forall next | next in Next(p, load)
        ensures UnitlessEdge(p, next, load, root, visited) ==> UnitlessEdge(p, next, load, root, more)
        ensures TypelessEdge(p, next, load, root, visited) ==> TypelessEdge(p, next, load, root, more)
      {
      }
    }

    /** No unit can be derived from a set closed in this way, unless the root supplies itself. */
    lemma {:induction false} UnitlessUnderivable(
      p: nat, load: bool, root: nat, visited: set<nat>, u: nat, n: nat)
      requires p in visited && u != 0 && (load || forall q | q in nodes :: !Edge(q, root, false))
      requires forall q {:trigger Unitless(q, load, root, visited)} | q in visited :: Unitless(q, load, root, visited)
      ensures !Derives(p, load, Unit(u), n)
      decreases n
    {
      if n > 0 && p in nodes {
        assert Unitless(p, load, root, visited);
        forall next: nat | Edge(p, next, load)
          ensures UnitlessEdge(p, next, load, root, visited) && !Supplies(next, load)
          ensures Moves(next) ==> !Derives(next, load, Unit(u), n - 1)
        {
          assert UnitlessEdge(p, next, load, root, visited);
          if Moves(next) { UnitlessUnderivable(next, load, root, visited, u, n - 1); }
        }
      }
    }

    lemma {:induction false} TypelessUnderivable(
      p: nat, load: bool, root: nat, visited: set<nat>, t: DataType, n: nat)
      requires p in visited && !t.Unknown? && (load || forall q | q in nodes :: !Edge(q, root, false))
      requires forall q {:trigger Typeless(q, load, root, visited)} | q in visited :: Typeless(q, load, root, visited)
      ensures !Derives(p, load, Type(t), n)
      decreases n
    {
      if n > 0 && p in nodes {
        assert Typeless(p, load, root, visited);
        forall next: nat | Edge(p, next, load)
          ensures TypelessEdge(p, next, load, root, visited) && !Supplies(next, load)
          ensures Moves(next) ==> !Derives(next, load, Type(t), n - 1)
        {
          assert TypelessEdge(p, next, load, root, visited);
          if Moves(next) { TypelessUnderivable(next, load, root, visited, t, n - 1); }
        }
      }
    }

    // -------------------------------------------------------------- what is recorded

    /** The verdict of a search of its own: derivable, and missing nothing that moves lead to. */
    ghost predicate Thorough(p: nat, load: bool, k: AccessKind)
      requires WellFormed()
    {
      && p in nodes && Explained(p, load, k) && Backed(p, load, k)
      && exists visited: set<nat> :: Closed(p, load, k, visited)
    }

    predicate Closed(p: nat, load: bool, k: AccessKind, visited: set<nat>) {
      p in visited && UnitThorough(k, load, p, visited, visited) && TypeThorough(k, load, p, visited, visited)
    }

    /** Some instruction takes a value from `p`. */
    ghost predicate Feeds(p: nat) { exists q | q in nodes :: Edge(q, p, false) }

    /** A thorough search leaves a unit or a type open exactly when none can be derived. */
    lemma FoundIff(p: nat, load: bool, k: AccessKind)
      requires WellFormed() && Thorough(p, load, k) && (load || !Feeds(p))
      ensures k.unitSize == 0 <==> forall u | u != 0 :: !Derivable(p, load, Unit(u))
      ensures load || !defaultType.Unknown? ==>
                (k.dataType.Unknown? <==> forall t: DataType | !t.Unknown? :: !Derivable(p, load, Type(t)))
    {
      var visited: set<nat> :| Closed(p, load, k, visited);
      if k.unitSize == 0 {
        forall u, n: nat | u != 0 ensures !Derives(p, load, Unit(u), n) {
          UnitlessUnderivable(p, load, p, visited, u, n);
        }
      }
      if k.dataType.Unknown? && (load || !defaultType.Unknown?) {
        forall t: DataType, n: nat | !t.Unknown? ensures !Derives(p, load, Type(t), n) {
          TypelessUnderivable(p, load, p, visited, t, n);
        }
      }
    }

    ghost predicate DefaultOf(p: nat, load: bool, k: AccessKind, kind: AccessKind)
      requires WellFormed()
    {
      p in nodes && Explained(p, load, k) && kind == Defaulted(k, nodes[p].op, defaultType)
    }

    /**
     * A recorded kind is the default of what a search found: a search of its own, backwards for a store and
     * forwards for a load, or a forward search on behalf of an instruction it supplies.
     */
    ghost predicate Justified(p: nat, kind: AccessKind)
      requires WellFormed() && p in nodes
    {
      || (Feeds(p) && exists k :: DefaultOf(p, true, k, kind))
      || (if Has(nodes[p].op, ".STORE") then exists k :: DefaultOf(p, false, k, kind) && Thorough(p, false, k)
          else if Has(nodes[p].op, ".LOAD") then exists k :: DefaultOf(p, true, k, kind) && Thorough(p, true, k)
          else kind == Defaulted(UNDETERMINED, nodes[p].op, defaultType))
    }

    ghost predicate Finished(p: nat, kind: AccessKind)
      requires WellFormed()
    {
      p in nodes && IsMemory(p) && Settled(p, kind) && KindOwned(p, kind) && Justified(p, kind)
    }

    /** Every recorded kind is finished, but for the instruction now being worked on. */
    ghost predicate Kept(root: nat, p: nat, kind: AccessKind)
      requires WellFormed()
    {
      Finished(p, kind) || (p == root && kind == UNDETERMINED)
    }

    ghost predicate Recorded(root: nat)
      requires WellFormed()
      reads this`kinds
    {
      forall p {:trigger Kept(root, p, kinds[p])} | p in kinds :: Kept(root, p, kinds[p])
    }

    /** What is recorded is never changed. */
    predicate Extends(before: map<nat, AccessKind>, after: map<nat, AccessKind>) {
      before.Keys <= after.Keys && forall p | p in before :: after[p] == before[p]
    }

    /** What was visited since `before` is a move or recorded. */
    predicate Stays(before: set<nat>, visited: set<nat>, kinds: map<nat, AccessKind>) {
      forall p | p in visited :: p in before || Moves(p) || p in kinds
    }

    constructor (
      nodes: map<nat, Instruction>, incoming: map<nat, seq<nat>>, outgoing: map<nat, seq<nat>>, defaultType: DataType)
      ensures this.nodes == nodes && this.incoming == incoming && this.outgoing == outgoing
      ensures this.defaultType == defaultType && kinds == map[]
    {
      this.nodes, this.incoming, this.outgoing, this.defaultType := nodes, incoming, outgoing, defaultType;
      kinds := map[];
    }

    // -------------------------------------------------------------- the search

    /** What following the first `i` edges of `pc` has made sure of. */
    predicate UnitProgress(pc: nat, load: bool, root: nat, seen: set<nat>, visited: set<nat>, i: nat, k: AccessKind)
      requires i <= |Next(pc, load)|
    {
      UnitThorough(k, load, root, visited - seen - {pc}, visited)
      && (k.unitSize == 0 ==> forall j | 0 <= j < i :: UnitlessEdge(pc, Next(pc, load)[j], load, root, visited))
    }

    predicate TypeProgress(pc: nat, load: bool, root: nat, seen: set<nat>, visited: set<nat>, i: nat, k: AccessKind)
      requires i <= |Next(pc, load)|
    {
      TypeThorough(k, load, root, visited - seen - {pc}, visited)
      && (k.dataType.Unknown? && (load || !defaultType.Unknown?) ==>
            forall j | 0 <= j < i :: TypelessEdge(pc, Next(pc, load)[j], load, root, visited))
    }

    lemma UnitProgressNext(pc: nat, load: bool, root: nat, seen: set<nat>, visited: set<nat>, i: nat, k: AccessKind,
                           visited': set<nat>, r: AccessKind)
      requires i < |Next(pc, load)| && UnitProgress(pc, load, root, seen, visited, i, k)
      requires visited <= visited' && (r.unitSize == 0 ==> k.unitSize == 0)
      requires UnitThorough(r, load, root, visited' - visited, visited')
      requires r.unitSize == 0 ==> UnitlessEdge(pc, Next(pc, load)[i], load, root, visited')
      ensures UnitProgress(pc, load, root, seen, visited', i + 1, r)
    {
      if r.unitSize == 0 {
        forall p | p in visited' - seen - {pc} ensures Unitless(p, load, root, visited') {
          if p in visited { assert Unitless(p, load, root, visited); UnitlessMore(p, load, root, visited, visited'); }
        }
      }
    }

    lemma TypeProgressNext(pc: nat, load: bool, root: nat, seen: set<nat>, visited: set<nat>, i: nat, k: AccessKind,
                           visited': set<nat>, r: AccessKind)
      requires i < |Next(pc, load)| && TypeProgress(pc, load, root, seen, visited, i, k)
      requires visited <= visited' && (r.dataType.Unknown? ==> k.dataType.Unknown?)
      requires TypeThorough(r, load, root, visited' - visited, visited')
      requires r.dataType.Unknown? && (load || !defaultType.Unknown?) ==>
                 TypelessEdge(pc, Next(pc, load)[i], load, root, visited')
      ensures TypeProgress(pc, load, root, seen, visited', i + 1, r)
    {
      if r.dataType.Unknown? && (load || !defaultType.Unknown?) {
        forall p | p in visited' - seen - {pc} ensures Typeless(p, load, root, visited') {
          if p in visited { assert Typeless(p, load, root, visited); UnitlessMore(p, load, root, visited, visited'); }
        }
      }
    }

    /** All edges followed, or enough found. */
    lemma ProgressEnds(pc: nat, load: bool, root: nat, seen: set<nat>, visited: set<nat>, i: nat, k: AccessKind)
      requires i <= |Next(pc, load)| && pc in nodes && (k.dataType.Unknown? ==> Own(pc).Unknown?)
      requires UnitProgress(pc, load, root, seen, visited, i, k) && TypeProgress(pc, load, root, seen, visited, i, k)
      requires i == |Next(pc, load)| || Known(k)
      ensures UnitThorough(k, load, root, visited - seen, visited)
      ensures TypeThorough(k, load, root, visited - seen, visited)
    {
      if i == |Next(pc, load)| {
        if k.unitSize == 0 { assert Unitless(pc, load, root, visited); }
        if k.dataType.Unknown? && (load || !defaultType.Unknown?) { assert Typeless(pc, load, root, visited); }
      }
    }

    lemma StatementsNext(pc: nat, load: bool, answers: seq<AccessKind>, answer: AccessKind, k: AccessKind)
      requires WellFormed() && pc in nodes && |answers| < |Next(pc, load)| && !Known(k)
      requires Verdict(Own(pc), Statements(pc, load, answers), k)
      ensures Verdict(Own(pc), Statements(pc, load, answers + [answer]),
                      Combined(k, Says(pc, Next(pc, load)[|answers|], load, answer)))
    {
      VerdictNext(Own(pc), Statements(pc, load, answers), k, Says(pc, Next(pc, load)[|answers|], load, answer));
      assert Statements(pc, load, answers + [answer])
          == Statements(pc, load, answers) + [Says(pc, Next(pc, load)[|answers|], load, answer)];
    }

    /** The state of the search after `|answers|` edges of `pc`. */
    ghost predicate Midway(pc: nat, load: bool, root: nat, seen: set<nat>, visited: set<nat>,
                           answers: seq<AccessKind>, k: AccessKind)
      requires WellFormed()
    {
      && pc in nodes && |answers| <= |Next(pc, load)| && seen + {pc} <= visited <= seen + nodes.Keys
      && k.vecSize == VecOf(nodes[pc].op) && UnitOrNone(k.unitSize) && Backed(pc, load, k)
      && Verdict(Own(pc), Statements(pc, load, answers), k)
      && UnitProgress(pc, load, root, seen, visited, |answers|, k)
      && TypeProgress(pc, load, root, seen, visited, |answers|, k)
    }

    /** What following one edge does. */
    ghost predicate Followed(pc: nat, next: nat, load: bool, root: nat, k: AccessKind, visited: set<nat>,
                             r: AccessKind, visited': set<nat>, answer: AccessKind) {
      && pc in nodes && next in nodes && Addressed(next)
      && r == Combined(k, Says(pc, next, load, answer)) && UnitOrNone(r.unitSize) && Backed(pc, load, r)
      && visited <= visited' <= visited + nodes.Keys
      && UnitThorough(r, load, root, visited' - visited, visited')
      && TypeThorough(r, load, root, visited' - visited, visited')
      && (r.unitSize == 0 ==> UnitlessEdge(pc, next, load, root, visited'))
      && (r.dataType.Unknown? && (load || !defaultType.Unknown?) ==> TypelessEdge(pc, next, load, root, visited'))
    }

    lemma MidwayFirst(pc: nat, load: bool, root: nat, seen: set<nat>)
      requires WellFormed() && pc in nodes
      ensures Midway(pc, load, root, seen, seen + {pc}, [], AccessKind(VecOf(nodes[pc].op), 0, Own(pc)))
    {
      OwnBacked(pc, load, VecOf(nodes[pc].op));
      assert Statements(pc, load, []) == [];
    }

    lemma MidwayNext(pc: nat, load: bool, root: nat, seen: set<nat>, visited: set<nat>, answers: seq<AccessKind>,
                     k: AccessKind, r: AccessKind, visited': set<nat>, answer: AccessKind)
      requires WellFormed() && Midway(pc, load, root, seen, visited, answers, k)
      requires |answers| < |Next(pc, load)| && !Known(k)
      requires Followed(pc, Next(pc, load)[|answers|], load, root, k, visited, r, visited', answer)
      ensures Midway(pc, load, root, seen, visited', answers + [answer], r)
    {
      StatementsNext(pc, load, answers, answer, k);
      UnitProgressNext(pc, load, root, seen, visited, |answers|, k, visited', r);
      TypeProgressNext(pc, load, root, seen, visited, |answers|, k, visited', r);
    }

    lemma MidwayEnds(pc: nat, load: bool, root: nat, seen: set<nat>, visited: set<nat>, answers: seq<AccessKind>,
                     k: AccessKind)
      requires WellFormed() && Midway(pc, load, root, seen, visited, answers, k)
      requires |answers| == |Next(pc, load)| || Known(k)
      ensures Explained(pc, load, k)
      ensures UnitThorough(k, load, root, visited - seen, visited)
      ensures TypeThorough(k, load, root, visited - seen, visited)
    {
      EnoughIff(Own(pc), Statements(pc, load, answers), k);
      TypeKnown(Own(pc), Statements(pc, load, answers), k.dataType);
      assert ExplainedBy(pc, load, k, answers);
      ProgressEnds(pc, load, root, seen, visited, |answers|, k);
    }

    /**
     * The search for the access kind of `pc`, forwards for a load and backwards for a store. It ends on every
     * graph: each call that goes further has visited one more instruction.
     */
    method InitAccessKind(pc: nat, seen: set<nat>, load: bool, ghost root: nat)
      returns (k: AccessKind, visited: set<nat>)
      requires WellFormed() && pc in nodes && Recorded(root)
      requires load || Stays({}, seen + {pc}, kinds)
      modifies this`kinds
      ensures Recorded(root) && Extends(old(kinds), kinds)
      ensures seen + {pc} <= visited <= seen + nodes.Keys && Stays(seen + {pc}, visited, kinds)
      ensures Searched(pc, k) && Backed(pc, load, k)
      ensures if pc in seen then k == UNDETERMINED && visited == seen else Explained(pc, load, k)
      ensures UnitThorough(k, load, root, visited - seen, visited)
      ensures TypeThorough(k, load, root, visited - seen, visited)
      decreases nodes.Keys - seen, 1
    {
      if pc in seen {
        return UNDETERMINED, seen;
      }
      visited := seen + {pc};
      var inst := nodes[pc];
      k := AccessKind(VecOf(inst.op), 0, if Has(inst.op, "UNIFORM") then Integer else Unknown);
      MidwayFirst(pc, load, root, seen);
      ghost var answers := [];
      if |Next(pc, load)| == 0 {
        MidwayEnds(pc, load, root, seen, visited, answers, k);
        return;
      }
      var edges := Next(pc, load);
      for i := 0 to |edges|
        invariant Recorded(root) && Extends(old(kinds), kinds) && Stays(seen + {pc}, visited, kinds)
        invariant |answers| == i && !Known(k) && Midway(pc, load, root, seen, visited, answers, k)
      {
        ghost var was, before, answer := k, visited, k;
        k, visited, answer := Follow(pc, edges[i], k, seen, visited, load, root);
        MidwayNext(pc, load, root, seen, before, answers, was, k, visited, answer);
        answers := answers + [answer];
        if !k.dataType.Unknown? && k.unitSize != 0 {
          break;
        }
      }
      MidwayEnds(pc, load, root, seen, visited, answers, k);
    }

    /** The kind of a memory instruction that supplies a stored value, recorded unless it already is. */
    method Supply(next: nat, visited: set<nat>, ghost root: nat) returns (n: AccessKind, visited': set<nat>)
      requires WellFormed() && Supplies(next, false) && Feeds(next) && Recorded(root) && Stays({}, visited, kinds)
      modifies this`kinds
      ensures Recorded(root) && Extends(old(kinds), kinds)
      ensures visited <= visited' <= visited + nodes.Keys && Stays(visited, visited', kinds)
      ensures UnitOrNone(n.unitSize) && KindOwned(next, n)
      ensures Settled(next, n) || (next == root && visited' == visited)
      decreases nodes.Keys - visited, 2
    {
      visited' := visited;
      if next !in kinds {
        n, visited' := InitAccessKind(next, visited, true, root);
        DefaultSettles(next, n);
        DefaultOwned(next, true, n);
        var kind := Defaulted(n, nodes[next].op, defaultType);
        assert DefaultOf(next, true, n, kind);
        assert Finished(next, kind);
        kinds := kinds[next := kind];
      }
      assert Kept(root, next, kinds[next]);
      n := kinds[next];
    }

    /** What asking a neighbour yields. */
    ghost predicate Answers(next: nat, load: bool, root: nat, visited: set<nat>, n: AccessKind, visited': set<nat>) {
      && visited <= visited' <= visited + nodes.Keys
      && UnitThorough(n, load, root, visited' - visited, visited')
      && TypeThorough(n, load, root, visited' - visited, visited')
      && (Moves(next) ==> next in visited')
      && (Supplies(next, load) && n.unitSize == 0 ==> next == root)
      && (Supplies(next, load) && n.dataType.Unknown? && !defaultType.Unknown? ==> next == root)
    }

    /** A neighbour that is asked in turn: a move passes the search on, a supplier has a kind of its own. */
    method Ask(pc: nat, next: nat, visited: set<nat>, load: bool, ghost root: nat)
      returns (n: AccessKind, visited': set<nat>)
      requires WellFormed() && pc in nodes && next in nodes && Recorded(root) && Edge(pc, next, load)
      requires Asked(next, load) && (load || Stays({}, visited, kinds))
      modifies this`kinds
      ensures Recorded(root) && Extends(old(kinds), kinds) && Stays(visited, visited', kinds)
      ensures UnitOrNone(n.unitSize) && Backed(pc, load, n) && Answers(next, load, root, visited, n, visited')
      decreases nodes.Keys - visited, 3
    {
      if Moves(next) {
        n, visited' := InitAccessKind(next, visited, load, root);
        ByMove(pc, next, load, n);
      } else {
        n, visited' := Supply(next, visited, root);
        BySupplier(pc, next, n);
      }
    }

    /** What a neighbour says that is not asked in turn. */
    function Near(pc: nat, next: nat, load: bool, k: AccessKind): (r: AccessKind)
      requires pc in nodes && next in nodes && Addressed(next) && !Asked(next, load)
    {
      if IsMemory(next) then AsAddress(k, nodes[pc], nodes[next])
      else AccessKind(k.vecSize, k.unitSize, TypeFrom(k.dataType, nodes[next].op, load))
    }

    lemma NearSays(pc: nat, next: nat, load: bool, k: AccessKind, answer: AccessKind)
      requires pc in nodes && next in nodes && Addressed(next) && !Asked(next, load)
      requires k.vecSize == VecOf(nodes[pc].op)
      ensures Near(pc, next, load, Filled(k, UnitFrom(nodes[next].op, k.vecSize, load), k.dataType))
           == Combined(k, Says(pc, next, load, answer))
    {
    }

    /** One neighbour's contribution. */
    method Follow(
      pc: nat, next: nat, k: AccessKind, ghost seen: set<nat>, visited: set<nat>, load: bool, ghost root: nat)
      returns (r: AccessKind, visited': set<nat>, ghost answer: AccessKind)
      requires WellFormed() && pc in nodes && next in nodes && Recorded(root)
      requires Edge(pc, next, load) && Backed(pc, load, k)
      requires pc !in seen && seen + {pc} <= visited && k.vecSize == VecOf(nodes[pc].op) && UnitOrNone(k.unitSize)
      requires load || Stays({}, visited, kinds)
      modifies this`kinds
      ensures Recorded(root) && Extends(old(kinds), kinds) && Stays(visited, visited', kinds)
      ensures Followed(pc, next, load, root, k, visited, r, visited', answer)
      decreases nodes.Keys - seen, 0
    {
      r, visited', answer := Filled(k, UnitFrom(nodes[next].op, k.vecSize, load), k.dataType), visited, UNDETERMINED;
      if Moves(next) || (IsMemory(next) && !load) {
        var n: AccessKind;
        n, visited' := Ask(pc, next, visited, load, root);
        r := Filled(r, n.unitSize, n.dataType);
        answer := n;
        AskedFollowed(pc, next, load, root, k, visited, n, visited');
      } else {
        NearSays(pc, next, load, k, answer);
        r := Near(pc, next, load, r);
        NearFollowed(pc, next, load, root, k, visited, answer);
      }
    }

    lemma AskedFollowed(pc: nat, next: nat, load: bool, root: nat, k: AccessKind, visited: set<nat>,
                        n: AccessKind, visited': set<nat>)
      requires pc in nodes && next in nodes && Addressed(next) && Edge(pc, next, load) && Asked(next, load)
      requires UnitOrNone(k.unitSize) && UnitOrNone(n.unitSize) && Backed(pc, load, k) && Backed(pc, load, n)
      requires Answers(next, load, root, visited, n, visited')
      ensures Followed(pc, next, load, root, k, visited, Combined(k, Says(pc, next, load, n)), visited', n)
    {
      CombinedBacked(pc, next, load, k, n);
      SaysAmends(pc, next, load, n);
    }

    lemma NearFollowed(pc: nat, next: nat, load: bool, root: nat, k: AccessKind, visited: set<nat>, n: AccessKind)
      requires pc in nodes && next in nodes && Addressed(next) && Edge(pc, next, load) && !Asked(next, load)
      requires UnitOrNone(k.unitSize) && Backed(pc, load, k)
      ensures Followed(pc, next, load, root, k, visited, Combined(k, Says(pc, next, load, n)), visited, n)
    {
      CombinedBacked(pc, next, load, k, n);
    }

    /** After parsing, exactly the memory instructions have an access kind, and every one is settled. */
    method Analyze()
      requires WellFormed() && kinds == map[]
      modifies this`kinds
      ensures forall p :: p in kinds <==> p in nodes && IsMemory(p)
      ensures forall p | p in kinds :: Finished(p, kinds[p])
    {
      var left := nodes.Keys;
      while left != {}
        invariant left <= nodes.Keys
        invariant forall p | p in kinds :: Finished(p, kinds[p])
        invariant forall p | p in nodes && p !in left && IsMemory(p) :: p in kinds
        decreases left
      {
        var pc :| pc in left;
        left := left - {pc};
        if IsMemory(pc) && pc !in kinds {
          AnalyzeOne(pc);
        }
      }
    }

    /** One memory instruction that no search has recorded yet. */
    method AnalyzeOne(pc: nat)
      requires WellFormed() && pc in nodes && IsMemory(pc) && pc !in kinds
      requires forall p | p in kinds :: Finished(p, kinds[p])
      modifies this`kinds
      ensures pc in kinds && old(kinds).Keys <= kinds.Keys
      ensures forall p | p in kinds :: Finished(p, kinds[p])
    {
      kinds := kinds[pc := UNDETERMINED];
      var k := Search(pc);
      assert forall p | p in kinds :: Kept(pc, p, kinds[p]);
      kinds := kinds[pc := Defaulted(k, nodes[pc].op, defaultType)];
    }

    /** Backwards from a store, forwards from a load, and nowhere from anything else. */
    method Search(pc: nat) returns (k: AccessKind)
      requires WellFormed() && pc in nodes && IsMemory(pc) && pc in kinds && Recorded(pc)
      modifies this`kinds
      ensures Recorded(pc) && Extends(old(kinds), kinds) && Finished(pc, Defaulted(k, nodes[pc].op, defaultType))
    {
      k := UNDETERMINED;
      var visited: set<nat> := {};
      if Has(nodes[pc].op, ".STORE") {
        k, visited := InitAccessKind(pc, visited, false, pc);
        OwnSearch(pc, false, k, visited);
      } else if Has(nodes[pc].op, ".LOAD") {
        k, visited := InitAccessKind(pc, visited, true, pc);
        OwnSearch(pc, true, k, visited);
      } else {
        DefaultSettles(pc, k);
        DefaultOwned(pc, true, k);
      }
    }

    /** What a search from scratch finds is worth recording. */
    lemma OwnSearch(p: nat, load: bool, k: AccessKind, visited: set<nat>)
      requires WellFormed() && p in nodes && IsMemory(p) && p in visited
      requires Searched(p, k) && Explained(p, load, k) && Backed(p, load, k)
      requires UnitThorough(k, load, p, visited - {}, visited) && TypeThorough(k, load, p, visited - {}, visited)
      requires load == !Has(nodes[p].op, ".STORE") && (load ==> Has(nodes[p].op, ".LOAD"))
      ensures Finished(p, Defaulted(k, nodes[p].op, defaultType))
    {
      DefaultSettles(p, k);
      DefaultOwned(p, load, k);
      assert visited - {} == visited;
      assert Closed(p, load, k, visited);
      assert DefaultOf(p, load, k, Defaulted(k, nodes[p].op, defaultType));
    }
  }
}
