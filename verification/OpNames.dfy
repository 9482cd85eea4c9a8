/** What an instruction's name says about the data it moves (redshow/src/binutils/instruction.cpp). */
module OpNames {
  import opened Common

  datatype DataType = Unknown | Integer | Float

  datatype AccessKind = AccessKind(vecSize: nat, unitSize: nat, dataType: DataType)

  const UNDETERMINED := AccessKind(0, 0, Unknown)

  predicate Has(op: string, part: string) {
    part <= op || (op != [] && Has(op[1..], part))
  }

  /** What std::string::find looks for. */
  lemma {:induction false} HasIff(op: string, part: string)
    ensures Has(op, part) <==> exists i :: 0 <= i <= |op| && part <= op[i..]
  {
    assert op[0..] == op;
    if op != [] {
      var rest := op[1..];
      HasIff(rest, part);
      if i :| 0 <= i <= |rest| && part <= rest[i..] { assert rest[i..] == op[i + 1..]; }
      if i :| 1 <= i <= |op| && part <= op[i..] {
        var k := i - 1;
        assert rest[k..] == op[i..];
      }
    }
  }

  // ---------------------------------------------------------------- widths

  predicate Width(n: nat) { n == 8 || n == 16 || n == 32 || n == 64 || n == 128 }

  function VecOf(op: string): (n: nat)
    ensures Width(n)
  {
    if Has(op, ".128") then 128
    else if Has(op, ".64") then 64
    else if Has(op, ".32") then 32
    else if Has(op, ".16") then 16
    else if Has(op, ".8") then 8
    else 32
  }

  predicate UnitOrNone(n: nat) { n == 0 || n == 8 || n == 16 || n == 32 || n == 64 }

  /** The unit size a neighbour's name tells, zero if it tells none. */
  function UnitFrom(op: string, vec: nat, load: bool): (n: nat)
    requires Width(vec)
    ensures UnitOrNone(n) && n <= vec
  {
    if Has(op, ".64") then Min(64, vec)
    else if Has(op, ".32") then Min(32, vec)
    else if Has(op, ".16") then Min(16, vec)
    else if Has(op, ".8") then Min(8, vec)
    else if Has(op, "._64_TO_32") then Min(if load then 64 else 32, vec)
    else if Has(op, "._32_TO_64") then Min(if load then 32 else 64, vec)
    else 0
  }

  function Decimal(n: nat): string {
    var digit := "0123456789"[n % 10];
    if n < 10 then [digit] else Decimal(n / 10) + [digit]
  }

  /** How a name tells a width, and a change of width. */
  function Tag(n: nat): string { "." + Decimal(n) }

  function WidthChange(from: nat, to: nat): string { "._" + Decimal(from) + "_TO_" + Decimal(to) }

  lemma Tags()
    ensures Tag(8) == ".8" && Tag(16) == ".16" && Tag(32) == ".32" && Tag(64) == ".64" && Tag(128) == ".128"
    ensures WidthChange(64, 32) == "._64_TO_32" && WidthChange(32, 64) == "._32_TO_64"
  {
    Decimals();
  }

  lemma Decimals()
    ensures Decimal(8) == "8" && Decimal(16) == "16" && Decimal(32) == "32" && Decimal(64) == "64"
    ensures Decimal(128) == "128"
  {
    assert Decimal(1) == "1" && Decimal(3) == "3" && Decimal(6) == "6";
    assert Decimal(16) == Decimal(1) + "6" && Decimal(32) == Decimal(3) + "2" && Decimal(64) == Decimal(6) + "4";
    assert Decimal(12) == Decimal(1) + "2" && Decimal(128) == Decimal(12) + "8";
  }

  /** The name tells this width and no larger one up to `limit`. */
  predicate Largest(op: string, n: nat, limit: nat) {
    Width(n) && n <= limit && Has(op, Tag(n)) && forall m | n < m <= limit && Width(m) :: !Has(op, Tag(m))
  }

  predicate Untold(op: string, limit: nat) { forall m | 0 <= m <= limit && Width(m) :: !Has(op, Tag(m)) }

  /** The vector size is the largest width the name tells, or 32. */
  lemma VecExact(op: string, n: nat)
    ensures VecOf(op) == n <==> Largest(op, n, 128) || (n == 32 && Untold(op, 128))
  {
    Tags();
  }

  /** The change of width the name tells; narrowing is looked for first. */
  predicate Changes(op: string, from: nat, to: nat) {
    && Has(op, WidthChange(from, to))
    && ((from == 64 && to == 32) || (from == 32 && to == 64 && !Has(op, WidthChange(64, 32))))
  }

  /** A unit is the largest width up to 64 that the name tells; failing that, one end of a change of width. */
  lemma UnitExact(op: string, vec: nat, load: bool)
    requires Width(vec)
    ensures forall n | Largest(op, n, 64) :: UnitFrom(op, vec, load) == Min(n, vec)
    ensures forall a: nat, b: nat | Untold(op, 64) && Changes(op, a, b) ::
              UnitFrom(op, vec, load) == Min(if load then a else b, vec)
    ensures UnitFrom(op, vec, load) == 0 <==>
            Untold(op, 64) && !Has(op, WidthChange(64, 32)) && !Has(op, WidthChange(32, 64))
  {
    Tags();
  }

  // ---------------------------------------------------------------- types

  predicate Converts(op: string) { Has(op, ".I2F") || Has(op, ".F2F") || Has(op, ".F2I") || Has(op, ".I2I") }

  /** The neighbour decides the type, whatever was thought before. */
  predicate Decides(op: string) {
    Has(op, "INTEGER") || Has(op, "UNIFORM") || Has(op, "FLOAT") || (Has(op, "CONVERT") && Converts(op))
  }

  /** The data type after an arithmetic or conversion neighbour. */
  function TypeFrom(t: DataType, op: string, load: bool): (r: DataType)
    ensures Decides(op) ==> !r.Unknown?
  {
    if Has(op, "INTEGER") || Has(op, "UNIFORM") then Integer
    else if Has(op, "FLOAT") then Float
    else if Has(op, "CONVERT") then
      if Has(op, ".I2F") then (if load then Integer else Float)
      else if Has(op, ".F2F") then Float
      else if Has(op, ".F2I") then (if load then Float else Integer)
      else if Has(op, ".I2I") then Integer
      else t
    else if t.Unknown? then Integer
    else t
  }

  function Word(t: DataType): string { match t case Integer => "INTEGER" case Float => "FLOAT" case Unknown => "" }

  /** An operation on one type only has that type; one that no word describes is taken for an integer one. */
  lemma TypeOfOperation(op: string, load: bool)
    requires !Has(op, "UNIFORM")
    ensures forall a, b | {a, b} == {Integer, Float} && Has(op, Word(a)) && !Has(op, Word(b)) ::
              Decides(op) && forall t :: TypeFrom(t, op, load) == a
    ensures !Has(op, Word(Integer)) && !Has(op, Word(Float)) && !Has(op, "CONVERT") ==>
              !Decides(op) && forall t :: TypeFrom(t, op, load) == if t.Unknown? then Integer else t
  {
    assert Word(Integer) == "INTEGER" && Word(Float) == "FLOAT";
  }

  function Letter(t: DataType): char { match t case Integer => 'I' case Float => 'F' case Unknown => '?' }

  /** How a name tells a conversion. */
  function Conversion(from: DataType, to: DataType): string { "." + [Letter(from)] + "2" + [Letter(to)] }

  predicate OnlyConverts(op: string, from: DataType, to: DataType) {
    && Has(op, Conversion(from, to))
    && forall a: DataType, b: DataType | !a.Unknown? && !b.Unknown? && Has(op, Conversion(a, b)) :: a == from && b == to
  }

  /** A load feeding a conversion has the type converted from, a store fed by one the type converted to. */
  lemma TypeOfConversion(t: DataType, op: string, load: bool, from: DataType, to: DataType)
    requires Has(op, "CONVERT") && !Has(op, "INTEGER") && !Has(op, "UNIFORM") && !Has(op, "FLOAT")
    requires !from.Unknown? && !to.Unknown? && OnlyConverts(op, from, to)
    ensures Decides(op) && TypeFrom(t, op, load) == if load then from else to
  {
    Conversions();
    assert Conversion(from, to) in {".I2F", ".F2F", ".F2I", ".I2I"};
  }

  lemma Conversions()
    ensures Conversion(Integer, Float) == ".I2F" && Conversion(Float, Float) == ".F2F"
    ensures Conversion(Float, Integer) == ".F2I" && Conversion(Integer, Integer) == ".I2I"
  {
  }
}
