/** What the neighbours of an instruction say about its access kind, taken in edge order. */
module Evidence {
  import opened Common
  import opened OpNames

  /** A unit, if not zero; a type, if known; and whether that type overrides what was said before. */
  datatype Said = Said(unit: nat, dataType: DataType, decides: bool)

  /** Fills in what is still unknown. */
  function Filled(k: AccessKind, unit: nat, dataType: DataType): (r: AccessKind)
    ensures UnitOrNone(k.unitSize) && UnitOrNone(unit) ==> UnitOrNone(r.unitSize)
  {
    AccessKind(
      k.vecSize,
      if k.unitSize == 0 then unit else k.unitSize,
      if k.dataType.Unknown? then dataType else k.dataType)
  }

  function Combined(k: AccessKind, s: Said): AccessKind {
    if s.decides then Filled(AccessKind(k.vecSize, k.unitSize, s.dataType), s.unit, s.dataType)
    else Filled(k, s.unit, s.dataType)
  }

  predicate Known(k: AccessKind) { k.unitSize != 0 && !k.dataType.Unknown? }

  // ---------------------------------------------------------------- the whole of the evidence

  /** The unit is the first that anybody tells. */
  predicate FirstUnit(says: seq<Said>, u: nat) {
    if u == 0 then forall i | 0 <= i < |says| :: says[i].unit == 0
    else exists i :: 0 <= i < |says| && says[i].unit == u && forall j | 0 <= j < i :: says[j].unit == 0
  }

  predicate LastDecision(says: seq<Said>, i: int) {
    0 <= i < |says| && says[i].decides && forall j | i < j < |says| :: !says[j].decides
  }

  /** The first type that anybody tells, the instruction itself before its neighbours. */
  predicate FirstType(own: DataType, says: seq<Said>, t: DataType) {
    if !own.Unknown? then t == own
    else if t.Unknown? then forall i | 0 <= i < |says| :: says[i].dataType.Unknown?
    else exists i :: 0 <= i < |says| && says[i].dataType == t && forall j | 0 <= j < i :: says[j].dataType.Unknown?
  }

  /** The type is that of the last neighbour that decides it, or else the first told. */
  ghost predicate TypeTold(own: DataType, says: seq<Said>, t: DataType) {
    || (exists i :: LastDecision(says, i) && t == says[i].dataType)
    || ((forall i | 0 <= i < |says| :: !says[i].decides) && FirstType(own, says, t))
  }

  /** Somebody tells a unit and somebody a type. */
  predicate Enough(own: DataType, says: seq<Said>) {
    && (exists i :: 0 <= i < |says| && says[i].unit != 0)
    && (!own.Unknown? || exists i :: 0 <= i < |says| && !says[i].dataType.Unknown?)
  }

  /** The verdict on what was said; nobody is heard once there is enough. */
  ghost predicate Verdict(own: DataType, says: seq<Said>, k: AccessKind) {
    && FirstUnit(says, k.unitSize) && TypeTold(own, says, k.dataType)
    && forall n | 0 <= n < |says| :: !Enough(own, says[..n])
  }

  predicate Sane(says: seq<Said>) { forall i | 0 <= i < |says| :: says[i].decides ==> !says[i].dataType.Unknown? }

  lemma TypeKnown(own: DataType, says: seq<Said>, t: DataType)
    requires Sane(says) && TypeTold(own, says, t)
    ensures !t.Unknown? <==> !own.Unknown? || exists i :: 0 <= i < |says| && !says[i].dataType.Unknown?
  {
    if i :| LastDecision(says, i) && t == says[i].dataType {
      assert !says[i].dataType.Unknown?;
    }
  }

  lemma EnoughIff(own: DataType, says: seq<Said>, k: AccessKind)
    requires Sane(says) && FirstUnit(says, k.unitSize) && TypeTold(own, says, k.dataType)
    ensures Enough(own, says) <==> Known(k)
  {
    TypeKnown(own, says, k.dataType);
  }

  lemma UnitNext(says: seq<Said>, u: nat, s: Said)
    requires FirstUnit(says, u)
    ensures FirstUnit(says + [s], if u == 0 then s.unit else u)
  {
    var more := says + [s];
    assert forall i | 0 <= i < |says| :: more[i] == says[i];
    assert more[|says|] == s;
  }

  lemma TypeNext(own: DataType, says: seq<Said>, t: DataType, s: Said)
    requires Sane(says) && TypeTold(own, says, t)
    ensures TypeTold(own, says + [s], if s.decides || t.Unknown? then s.dataType else t)
  {
    var more := says + [s];
    assert forall i | 0 <= i < |says| :: more[i] == says[i];
    assert more[|says|] == s;
    if s.decides {
      assert LastDecision(more, |says|);
    } else if i :| LastDecision(says, i) && t == says[i].dataType {
      assert LastDecision(more, i);
    } else {
      assert FirstType(own, more, if t.Unknown? then s.dataType else t);
    }
  }

  /** One more neighbour is heard. */
  lemma VerdictNext(own: DataType, says: seq<Said>, k: AccessKind, s: Said)
    requires Sane(says) && Verdict(own, says, k) && !Known(k)
    ensures Verdict(own, says + [s], Combined(k, s))
  {
    UnitNext(says, k.unitSize, s);
    TypeNext(own, says, k.dataType, s);
    EnoughIff(own, says, k);
    forall n | 0 <= n < |says + [s]| ensures !Enough(own, (says + [s])[..n]) {
      assert (says + [s])[..n] == says[..n];
      assert says[..|says|] == says;
    }
  }

  /** There is one verdict: where to stop, the unit and the type are determined by what all would say. */
  lemma VerdictUnique(own: DataType, all: seq<Said>, n: nat, m: nat, k: AccessKind, l: AccessKind)
    requires n <= m <= |all| && Sane(all) && Verdict(own, all[..n], k) && Verdict(own, all[..m], l)
    requires n < |all| ==> Enough(own, all[..n])
    ensures n == m && k.unitSize == l.unitSize && k.dataType == l.dataType
  {
    assert all[..m][..n] == all[..n];
    var says := all[..n];
    if i, j :| LastDecision(says, i) && LastDecision(says, j) { assert i == j; }
  }

  // ---------------------------------------------------------------- answers

  /** What a neighbour says once it is asked, if it is, against what it says alone. */
  predicate Amends(alone: Said, asked: bool, said: Said) {
    && (alone.unit != 0 ==> said.unit == alone.unit)
    && (!alone.dataType.Unknown? ==> !said.dataType.Unknown?)
    && (!asked ==> said == alone)
  }

  predicate AllAmend(alone: seq<Said>, asked: seq<bool>, says: seq<Said>)
    requires |says| <= |alone| == |asked|
  {
    forall i {:trigger says[i]} | 0 <= i < |says| :: Amends(alone[i], asked[i], says[i])
  }

  /** The `i`-th neighbour is the first to tell a unit, and no earlier one is asked. */
  predicate FirstToTell(alone: seq<Said>, asked: seq<bool>, i: int)
    requires |alone| == |asked|
  {
    0 <= i < |alone| && alone[i].unit != 0 && forall j | 0 <= j < i :: alone[j].unit == 0 && !asked[j]
  }

  /** The verdict when it was not enough, and so everybody was heard. */
  lemma UnknownMeans(own: DataType, alone: seq<Said>, asked: seq<bool>, says: seq<Said>, k: AccessKind)
    requires |says| <= |alone| == |asked| && AllAmend(alone, asked, says) && Sane(says)
    requires Verdict(own, says, k) && (|says| < |alone| ==> Enough(own, says))
    ensures k.unitSize == 0 ==> forall i | 0 <= i < |alone| :: alone[i].unit == 0
    ensures k.dataType.Unknown? ==> own.Unknown? && forall i | 0 <= i < |alone| :: alone[i].dataType.Unknown?
  {
    EnoughIff(own, says, k);
    TypeKnown(own, says, k.dataType);
    if |says| == |alone| {
      forall i | 0 <= i < |alone|
        ensures k.unitSize == 0 ==> alone[i].unit == 0
        ensures k.dataType.Unknown? ==> alone[i].dataType.Unknown?
      {
        assert Amends(alone[i], asked[i], says[i]);
      }
    }
  }

  lemma FirstTold(own: DataType, alone: seq<Said>, asked: seq<bool>, says: seq<Said>, k: AccessKind, i: nat)
    requires |says| <= |alone| == |asked| && AllAmend(alone, asked, says) && Sane(says)
    requires Verdict(own, says, k) && (|says| < |alone| ==> Enough(own, says)) && FirstToTell(alone, asked, i)
    ensures k.unitSize == alone[i].unit
  {
    forall j | 0 <= j < i && j < |says| ensures says[j].unit == 0 { assert Amends(alone[j], asked[j], says[j]); }
    if i < |says| { assert Amends(alone[i], asked[i], says[i]); }
  }
}
