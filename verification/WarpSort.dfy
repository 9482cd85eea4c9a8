/** `warp_sort` (include/utils.h): a bitonic sorting network over the 32 lanes of a warp. */
module BitonicWarps {
  import opened Common

  const LANES := 32

  /** The lane masks and block sizes the network uses. */
  function Pow(n: nat): (p: nat)
    ensures p >= 1
  {
    match n case 0 => 1 case 1 => 2 case 2 => 4 case 3 => 8 case 4 => 16 case _ => 32
  }

  /** Bit `b` of a lane id, as `bfe` extracts it. */
  predicate Bfe(lane: nat, b: nat) { lane / Pow(b) % 2 == 1 }

  /** The lane a shuffle by exclusive or with `Pow(j)` reads from. */
  function Xor(lane: nat, j: nat): (r: int)
    requires lane < LANES && j <= 4
    ensures 0 <= r < LANES
  {
    if Bfe(lane, j) then lane - Pow(j) else lane + Pow(j)
  }

  type Warp = x: seq<nat> | |x| == LANES witness seq(LANES, i => 0)

  function Comparator(x: Warp, j: nat, dir: seq<bool>): Warp
    requires j <= 4 && |dir| == LANES
  {
    seq(LANES, i requires 0 <= i < LANES =>
      var y := x[Xor(i, j)];
      if (x[i] < y) == dir[i] then y else x[i])
  }

  function Direction(k: nat, j: nat): (d: seq<bool>)
    ensures |d| == LANES
  {
    seq(LANES, i requires 0 <= i < LANES => Bfe(i, k) != Bfe(i, j))
  }

  function LastDirection(j: nat): (d: seq<bool>)
    ensures |d| == LANES
  {
    seq(LANES, i requires 0 <= i < LANES => Bfe(i, j))
  }

  /** The fifteen comparator stages, A to O. */
  function WarpSort(x: Warp): Warp {
    var a := Comparator(x, 0, Direction(1, 0));
    var b := Comparator(a, 1, Direction(2, 1));
    var c := Comparator(b, 0, Direction(2, 0));
    var d := Comparator(c, 2, Direction(3, 2));
    var e := Comparator(d, 1, Direction(3, 1));
    var f := Comparator(e, 0, Direction(3, 0));
    var g := Comparator(f, 3, Direction(4, 3));
    var h := Comparator(g, 2, Direction(4, 2));
    var i := Comparator(h, 1, Direction(4, 1));
    var j := Comparator(i, 0, Direction(4, 0));
    var k := Comparator(j, 4, LastDirection(4));
    var l := Comparator(k, 3, LastDirection(3));
    var m := Comparator(l, 2, LastDirection(2));
    var n := Comparator(m, 1, LastDirection(1));
    Comparator(n, 0, LastDirection(0))
  }

  // ---------------------------------------------------------------- the network by phases

  /** Stage `j` of phase `k`: in blocks of `Pow(k + 1)` lanes, alternately up and down. */
  function Stage(x: Warp, k: nat, j: nat): Warp
    requires j <= k <= 4
  {
    Comparator(x, j, Direction(k + 1, j))
  }

  /** The state of phase `k` before stage `j`; its result for `j == -1`. */
  function Before(x: Warp, k: nat, j: int): Warp
    requires -1 <= j <= k <= 4
    decreases k - j
  {
    if j == k then x else Stage(Before(x, k, j + 1), k, j + 1)
  }

  function Phases(x: Warp, k: nat): Warp
    requires k <= 4
  {
    Before(if k == 0 then x else Phases(x, k - 1), k, -1)
  }

  lemma NetworkIsPhases(x: Warp)
    ensures WarpSort(x) == Phases(x, 4)
  {
    var p0 := Phases(x, 0);
    var p1, p2, p3 := Phase1(p0), Phase2(Phase1(p0)), Phase3(Phase2(Phase1(p0)));
    assert Phases(x, 1) == p1 && Phases(x, 2) == p2 && Phases(x, 3) == p3;
    LastPhase(4);
    LastPhase(3);
    LastPhase(2);
    LastPhase(1);
    LastPhase(0);
    assert Phases(x, 4) == Phase4(p3);
  }

  function Phase1(x: Warp): (y: Warp)
    ensures y == Before(x, 1, -1)
  {
    Stage(Stage(x, 1, 1), 1, 0)
  }

  function Phase2(x: Warp): (y: Warp)
    ensures y == Before(x, 2, -1)
  {
    var b := Stage(x, 2, 2);
    assert b == Before(x, 2, 1);
    Stage(Stage(b, 2, 1), 2, 0)
  }

  function Phase3(x: Warp): (y: Warp)
    ensures y == Before(x, 3, -1)
  {
    var b := Stage(Stage(x, 3, 3), 3, 2);
    assert b == Before(x, 3, 1);
    Stage(Stage(b, 3, 1), 3, 0)
  }

  function Phase4(x: Warp): (y: Warp)
    ensures y == Before(x, 4, -1)
  {
    var b := Stage(Stage(x, 4, 4), 4, 3);
    assert b == Before(x, 4, 2);
    var c := Stage(b, 4, 2);
    assert c == Before(x, 4, 1);
    Stage(Stage(c, 4, 1), 4, 0)
  }

  lemma LastPhase(j: nat)
    requires j <= 4
    ensures LastDirection(j) == Direction(5, j)
  {
    forall i | 0 <= i < LANES ensures LastDirection(j)[i] == Direction(5, j)[i] {
      assert !Bfe(i, 5);
    }
  }

  // ---------------------------------------------------------------- one stage, block by block

  /** Lane `i` and its partner `h` above are exchanged into order, ascending or descending. */
  predicate Ordered(x: Warp, y: Warp, i: nat, h: nat, up: bool) {
    i + h < LANES &&
    if up then y[i] == Min(x[i], x[i + h]) && y[i + h] == Max(x[i], x[i + h])
    else y[i] == Max(x[i], x[i + h]) && y[i + h] == Min(x[i], x[i + h])
  }

  lemma StageOrders(x: Warp, k: nat, j: nat, o: nat, a: nat)
    requires j <= k <= 4 && o % Pow(j + 1) == 0 && o + Pow(j + 1) <= LANES && o <= a < o + Pow(j)
    ensures Ordered(x, Stage(x, k, j), a, Pow(j), o / Pow(k + 1) % 2 == 0)
  {
    HalfBits(j, o, a);
    BlockBits(k, j, o, a);
    BlockBits(k, j, o, a + Pow(j));
  }

  /** In a block of twice `Pow(j)` lanes, bit `j` tells the halves apart. */
  lemma HalfBits(j: nat, o: nat, a: nat)
    requires j <= 4 && o % Pow(j + 1) == 0 && o <= a < o + Pow(j)
    ensures !Bfe(a, j) && Bfe(a + Pow(j), j)
  {
    assert Pow(j + 1) == 2 * Pow(j);
    HalfIndex(o, Pow(j), a);
  }

  lemma HalfIndex(o: nat, h: nat, a: nat)
    requires h >= 1 && o % (2 * h) == 0 && o <= a < o + h
    ensures a / h % 2 == 0 && (a + h) / h % 2 == 1
  {
    var q := o / (2 * h);
    assert o == h * (2 * q);
    Quotient(a, h, 2 * q);
    Quotient(a + h, h, 2 * q + 1);
  }

  lemma Quotient(a: nat, h: nat, q: nat)
    requires h >= 1 && h * q <= a < h * q + h
    ensures a / h == q
  {
    var r := a / h;
    assert a == h * r + a % h;
    if r < q { MulOrder(h, r + 1, q); }
    if q < r { MulOrder(h, q + 1, r); }
  }

  lemma MulOrder(h: nat, r: nat, q: nat)
    requires r <= q
    ensures h * r <= h * q
  {
    assert h * q == h * r + h * (q - r);
  }

  /** All lanes of such a block agree on the higher bits. */
  lemma {:induction false} BlockBits(k: nat, j: nat, o: nat, a: nat)
    requires j <= k <= 4 && o % Pow(j + 1) == 0 && o <= a < o + Pow(j + 1)
    ensures a / Pow(k + 1) == o / Pow(k + 1)
  {
    if k == j {
      if j == 0 {
      } else if j == 1 {
      } else if j == 2 {
      } else if j == 3 {
      }
    } else {
      BlockBits(k - 1, j, o, a);
      HalvePow(a, k);
      HalvePow(o, k);
    }
  }

  lemma HalvePow(a: nat, k: nat)
    requires 1 <= k <= 4
    ensures a / Pow(k + 1) == a / Pow(k) / 2
  {
    if k == 1 {
    } else if k == 2 {
    } else if k == 3 {
    }
  }

  // ---------------------------------------------------------------- thresholds

  /** Of the lanes from `o` up to `e`, those whose value reaches `t` are the ones from `i` up to `j`, or all others. */
  predicate Wave(x: Warp, t: nat, o: nat, e: nat, i: nat, j: nat, inverted: bool) {
    && o <= i <= j <= e <= LANES
    && forall a | o <= a < e :: (x[a] >= t) == ((i <= a < j) != inverted)
  }

  /** All values of the block reach `t`, or none does. */
  predicate Flat(x: Warp, t: nat, o: nat, e: nat, high: bool) {
    o <= e <= LANES && forall a | o <= a < e :: (x[a] >= t) == high
  }

  /** The values reaching `t` are at the upper end of the block, or at the lower end when sorted downwards. */
  predicate Sorted(x: Warp, t: nat, o: nat, e: nat, up: bool) {
    && o <= e <= LANES
    && forall a, b | o <= a < b < e :: if up then x[a] >= t ==> x[b] >= t else x[b] >= t ==> x[a] >= t
  }

  datatype Part = Part(i: nat, j: nat, inverted: bool)

  /** One stage splits a wave into two waves, one of which is flat, on the side its direction asks for. */
  lemma HalfClean(x: Warp, y: Warp, t: nat, o: nat, h: nat, p: Part, up: bool) returns (lower: Part, upper: Part)
    requires Wave(x, t, o, o + 2 * h, p.i, p.j, p.inverted) && forall a | o <= a < o + h :: Ordered(x, y, a, h, up)
    ensures Wave(y, t, o, o + h, lower.i, lower.j, lower.inverted)
    ensures Wave(y, t, o + h, o + 2 * h, upper.i, upper.j, upper.inverted)
    ensures Flat(y, t, o, o + h, !up) || Flat(y, t, o + h, o + 2 * h, up)
  {
    var long := p.j - p.i > h;
    var wave := if p.j <= o + h then Part(p.i, p.j, p.inverted)
                else if p.i >= o + h then Part(p.i - h, p.j - h, p.inverted)
                else if long then Part(p.i, p.j - h, p.inverted)
                else Part(p.j - h, p.i, !p.inverted);
    var inner := long != p.inverted;
    if inner == up {
      lower, upper := wave, Part(o + h, o + h, inner);
    } else {
      lower, upper := Part(o, o, inner), wave.(i := wave.i + h, j := wave.j + h);
    }
    forall a | o <= a < o + h ensures (y[a] >= t) == ((lower.i <= a < lower.j) != lower.inverted) {
      assert Ordered(x, y, a, h, up);
    }
    forall b | o + h <= b < o + 2 * h ensures (y[b] >= t) == ((upper.i <= b < upper.j) != upper.inverted) {
      assert Ordered(x, y, b - h, h, up);
    }
  }

  // ---------------------------------------------------------------- merging and sorting blocks

  lemma FlatStage(x: Warp, y: Warp, t: nat, o: nat, h: nat, up: bool, v: bool)
    requires Flat(x, t, o, o + 2 * h, v) && forall a | o <= a < o + h :: Ordered(x, y, a, h, up)
    ensures Flat(y, t, o, o + h, v) && Flat(y, t, o + h, o + 2 * h, v)
  {
    forall a | o <= a < o + h ensures (y[a] >= t) == v { assert Ordered(x, y, a, h, up); }
    forall b | o + h <= b < o + 2 * h ensures (y[b] >= t) == v { assert Ordered(x, y, b - h, h, up); }
  }

  lemma HalfOffsets(o: nat, h: nat)
    requires h >= 1 && o % (2 * h) == 0
    ensures o % h == 0 && (o + h) % h == 0
  {
    var q := o / (2 * h);
    assert o == h * (2 * q) && o + h == h * (2 * q + 1);
    Quotient(o, h, 2 * q);
    Quotient(o + h, h, 2 * q + 1);
  }

  predicate KeepsFlat(x: Warp, z: Warp, t: nat, o: nat, e: nat) {
    && (Flat(x, t, o, e, true) ==> Flat(z, t, o, e, true))
    && (Flat(x, t, o, e, false) ==> Flat(z, t, o, e, false))
  }

  /** Halves that end up sorted, one of them flat on the right side, make a sorted block. */
  lemma CombineHalves(b: Warp, y: Warp, z: Warp, t: nat, o: nat, h: nat, up: bool)
    requires o + 2 * h <= LANES && forall a | o <= a < o + h :: Ordered(b, y, a, h, up)
    requires Sorted(z, t, o, o + h, up) && Sorted(z, t, o + h, o + 2 * h, up)
    requires KeepsFlat(y, z, t, o, o + h) && KeepsFlat(y, z, t, o + h, o + 2 * h)
    requires Flat(y, t, o, o + h, !up) || Flat(y, t, o + h, o + 2 * h, up)
    ensures Sorted(z, t, o, o + 2 * h, up) && KeepsFlat(b, z, t, o, o + 2 * h)
  {
    if Flat(b, t, o, o + 2 * h, true) { FlatStage(b, y, t, o, h, up, true); }
    if Flat(b, t, o, o + 2 * h, false) { FlatStage(b, y, t, o, h, up, false); }
  }

  predicate BlockOrdered(x: Warp, y: Warp, o: nat, h: nat, up: bool) {
    forall a | o <= a < o + h :: Ordered(x, y, a, h, up)
  }

  /** A block of `Pow(j)` lanes starts at `o`. */
  predicate Block(o: nat, j: nat) { o % Pow(j) == 0 && o + Pow(j) <= LANES }

  /** Phase `k` sorts the block that lane `o` is in upwards. */
  predicate Up(k: nat, o: nat) { o / Pow(k + 1) % 2 == 0 }

  predicate OrderedAt(x: Warp, y: Warp, k: nat, j: nat, o: nat) { BlockOrdered(x, y, o, Pow(j), Up(k, o)) }

  /** `y` follows from `x` by a stage that orders every block of twice `Pow(j)` lanes, in its direction. */
  ghost predicate Staged(x: Warp, y: Warp, k: nat, j: nat) {
    forall o: nat | Block(o, j + 1) :: OrderedAt(x, y, k, j, o)
  }

  lemma StageIsStaged(x: Warp, k: nat, j: nat)
    requires j <= k <= 4
    ensures Staged(x, Stage(x, k, j), k, j)
  {
    var y := Stage(x, k, j);
    forall o: nat | Block(o, j + 1) ensures OrderedAt(x, y, k, j, o) {
      var h, up := Pow(j), Up(k, o);
      forall a | o <= a < o + h ensures Ordered(x, y, a, h, up) { StageOrders(x, k, j, o, a); }
    }
  }

  lemma BlockHalves(k: nat, j: nat, o: nat)
    requires j <= k <= 4 && Block(o, j + 1)
    ensures Pow(j + 1) == 2 * Pow(j) && Block(o, j) && Block(o + Pow(j), j) && Up(k, o + Pow(j)) == Up(k, o)
  {
    HalfOffsets(o, Pow(j));
    BlockBits(k, j, o, o + Pow(j));
  }

  /** The states of phase `k` from before stage `j` to its end. */
  ghost predicate Trail(st: seq<Warp>, k: nat, j: int) {
    -1 <= j <= k <= 4 && |st| == j + 2 && forall r | 0 <= r <= j :: Staged(st[r], st[r + 1], k, j - r)
  }

  lemma TrailCons(x: Warp, rest: seq<Warp>, k: nat, j: nat)
    requires j <= k && Trail(rest, k, j - 1) && Staged(x, rest[0], k, j)
    ensures Trail([x] + rest, k, j)
  {
    var st := [x] + rest;
    forall r | 0 <= r <= j ensures Staged(st[r], st[r + 1], k, j - r) {
      if r > 0 { assert Staged(rest[r - 1], rest[r - 1 + 1], k, j - 1 - (r - 1)); }
    }
  }

  lemma {:induction false} PhaseTrail(x: Warp, k: nat, j: int) returns (st: seq<Warp>)
    requires -1 <= j <= k <= 4
    ensures Trail(st, k, j) && st[0] == Before(x, k, j) && st[j + 1] == Before(x, k, -1)
  {
    if j == -1 {
      st := [Before(x, k, -1)];
    } else {
      var rest := PhaseTrail(x, k, j - 1);
      StageIsStaged(Before(x, k, j), k, j);
      TrailCons(Before(x, k, j), rest, k, j);
      st := [Before(x, k, j)] + rest;
    }
  }

  lemma TrailTail(st: seq<Warp>, k: nat, j: nat)
    requires Trail(st, k, j)
    ensures Trail(st[1..], k, j - 1)
  {
    var rest := st[1..];
    forall r | 0 <= r <= j - 1 ensures Staged(rest[r], rest[r + 1], k, j - 1 - r) {
      assert Staged(st[r + 1], st[r + 1 + 1], k, j - (r + 1));
    }
  }

  /** The stages from `j` down sort every wave of `Pow(j + 1)` lanes and leave flat blocks flat. */
  lemma {:induction false} MergeBlock(st: seq<Warp>, k: nat, j: int, o: nat, t: nat, p: Part)
    requires Trail(st, k, j) && Block(o, j + 1) && Wave(st[0], t, o, o + Pow(j + 1), p.i, p.j, p.inverted)
    ensures Sorted(st[j + 1], t, o, o + Pow(j + 1), Up(k, o))
    ensures KeepsFlat(st[0], st[j + 1], t, o, o + Pow(j + 1))
    decreases j + 1, 1
  {
    if j >= 0 {
      BlockHalves(k, j, o);
      assert Staged(st[0], st[0 + 1], k, j - 0) && OrderedAt(st[0], st[1], k, j, o);
      MergeHalves(st, k, j, o, Pow(j), t, p);
    }
  }

  lemma {:induction false} MergeHalves(st: seq<Warp>, k: nat, j: nat, o: nat, h: nat, t: nat, p: Part)
    requires Trail(st, k, j) && Block(o, j) && Block(o + h, j) && h == Pow(j) && Up(k, o + h) == Up(k, o)
    requires BlockOrdered(st[0], st[1], o, h, Up(k, o)) && Wave(st[0], t, o, o + 2 * h, p.i, p.j, p.inverted)
    ensures Sorted(st[j + 1], t, o, o + 2 * h, Up(k, o)) && KeepsFlat(st[0], st[j + 1], t, o, o + 2 * h)
    decreases j + 1, 0
  {
    var lower, upper := HalfClean(st[0], st[1], t, o, h, p, Up(k, o));
    TrailTail(st, k, j);
    var rest := st[1..];
    assert rest[0] == st[1] && rest[j] == st[j + 1];
    MergeBlock(rest, k, j - 1, o, t, lower);
    MergeBlock(rest, k, j - 1, o + h, t, upper);
    CombineHalves(st[0], st[1], st[j + 1], t, o, h, Up(k, o));
  }

  /** An ascending half followed by a descending one is a wave. */
  lemma PairIsWave(x: Warp, t: nat, o: nat, h: nat) returns (p: Part)
    requires o + 2 * h <= LANES && Sorted(x, t, o, o + h, true) && Sorted(x, t, o + h, o + 2 * h, false)
    ensures Wave(x, t, o, o + 2 * h, p.i, p.j, p.inverted)
  {
    var i, j := o, o + 2 * h;
    while i < o + h && x[i] < t
      invariant o <= i <= o + h && forall a | o <= a < i :: x[a] < t
    {
      i := i + 1;
    }
    while j > o + h && x[j - 1] < t
      invariant o + h <= j <= o + 2 * h && forall a | j <= a < o + 2 * h :: x[a] < t
    {
      j := j - 1;
    }
    p := Part(i, j, false);
  }

  predicate SortedAt(x: Warp, t: nat, k: nat, o: nat) { Sorted(x, t, o, o + Pow(k + 1), Up(k, o)) }

  /** Every block of `Pow(k + 1)` lanes is sorted, alternately up and down. */
  ghost predicate BlocksSorted(x: Warp, t: nat, k: nat) {
    forall o: nat | Block(o, k + 1) :: SortedAt(x, t, k, o)
  }

  lemma PhaseSorts(x: Warp, k: nat, t: nat, st: seq<Warp>)
    requires k <= 4 && Trail(st, k, k) && st[0] == x && (k > 0 ==> BlocksSorted(x, t, k - 1))
    ensures BlocksSorted(st[k + 1], t, k)
  {
    var h, z := Pow(k), st[k + 1];
    forall o: nat | Block(o, k + 1) ensures SortedAt(z, t, k, o) {
      BlockHalves(k, k, o);
      if k > 0 {
        HalfIndex(o, h, o);
        assert SortedAt(x, t, k - 1, o) && SortedAt(x, t, k - 1, o + h);
      }
      var p := PairIsWave(x, t, o, h);
      MergeBlock(st, k, k, o, t, p);
    }
  }

  /** After phase `k`, blocks of `Pow(k + 1)` lanes are sorted for every threshold. */
  lemma {:induction false} PhasesSort(x: Warp, k: nat, t: nat)
    requires k <= 4
    ensures BlocksSorted(Phases(x, k), t, k)
  {
    if k == 0 {
      PhaseFrom(x, 0, t);
    } else {
      PhasesSort(x, k - 1, t);
      PhaseFrom(Phases(x, k - 1), k, t);
    }
  }

  lemma PhaseFrom(y: Warp, k: nat, t: nat)
    requires k <= 4 && (k > 0 ==> BlocksSorted(y, t, k - 1))
    ensures BlocksSorted(Before(y, k, -1), t, k)
  {
    var st := PhaseTrail(y, k, k);
    PhaseSorts(y, k, t, st);
  }

  // ---------------------------------------------------------------- nothing is lost

  lemma SwapPermutes(s: seq<nat>, a: nat, b: nat)
    requires a < b < |s|
    ensures multiset(s[a := s[b]][b := s[a]]) == multiset(s)
  {
  }

  /** The stage applied only to the pairs whose lower lane is below `n`. */
  function Partial(x: Warp, y: Warp, j: nat, n: nat): (s: seq<nat>)
    requires j <= 4
    ensures |s| == LANES
  {
    seq(LANES, i requires 0 <= i < LANES => if (if Bfe(i, j) then i - Pow(j) else i) < n then y[i] else x[i])
  }

  lemma {:induction false} PartialPermutes(x: Warp, y: Warp, j: nat, n: nat)
    requires j <= 4 && n <= LANES && forall a | 0 <= a < LANES && !Bfe(a, j) :: Paired(x, y, a, Pow(j))
    ensures multiset(Partial(x, y, j, n)) == multiset(x)
  {
    if n == 0 {
      assert Partial(x, y, j, 0) == x by {
        forall i | 0 <= i < LANES ensures Partial(x, y, j, 0)[i] == x[i] { assert 0 <= Xor(i, j); }
      }
    } else {
      PartialPermutes(x, y, j, n - 1);
      if Bfe(n - 1, j) { UpperStep(x, y, j, n - 1); } else { LowerStep(x, y, j, n - 1); }
    }
  }

  /** The two lanes keep their values or exchange them. */
  predicate Paired(x: Warp, y: Warp, a: nat, h: nat) {
    a + h < LANES && ((y[a] == x[a] && y[a + h] == x[a + h]) || (y[a] == x[a + h] && y[a + h] == x[a]))
  }

  lemma UpperStep(x: Warp, y: Warp, j: nat, a: nat)
    requires j <= 4 && a < LANES && Bfe(a, j)
    ensures Partial(x, y, j, a + 1) == Partial(x, y, j, a)
  {
    forall i | 0 <= i < LANES ensures Partial(x, y, j, a + 1)[i] == Partial(x, y, j, a)[i] {
      if Bfe(i, j) && i - Pow(j) == a { LowerLane(j, a, i); }
    }
  }

  lemma LowerStep(x: Warp, y: Warp, j: nat, a: nat)
    requires j <= 4 && a < LANES && !Bfe(a, j) && Paired(x, y, a, Pow(j))
    ensures multiset(Partial(x, y, j, a + 1)) == multiset(Partial(x, y, j, a))
  {
    var b := a + Pow(j);
    var r, s := Partial(x, y, j, a), Partial(x, y, j, a + 1);
    LowerLane(j, a, b);
    assert r[a] == x[a] && r[b] == x[b] && s[a] == y[a] && s[b] == y[b];
    assert forall i | 0 <= i < LANES && i != a && i != b :: s[i] == r[i];
    SwapPermutes(r, a, b);
    assert s == r || s == r[a := r[b]][b := r[a]];
  }

  /** The partner above a lane has bit `j` set exactly when the lane has not. */
  lemma LowerLane(j: nat, a: nat, b: nat)
    requires j <= 4 && b == a + Pow(j)
    ensures Bfe(b, j) <==> !Bfe(a, j)
  {
    Quotient(b, Pow(j), a / Pow(j) + 1);
  }

  lemma PairOrdered(x: Warp, k: nat, j: nat, a: nat)
    requires j <= k <= 4 && a < LANES && !Bfe(a, j)
    ensures Paired(x, Stage(x, k, j), a, Pow(j))
  {
    var h := Pow(j);
    var o := a - a % (2 * h);
    assert 0 <= Xor(a, j);
    assert Pow(j + 1) == 2 * h;
    assert o % (2 * h) == 0 && o + 2 * h <= LANES && a < o + h by { BlockStart(a, j); }
    StageOrders(x, k, j, o, a);
  }

  lemma BlockStart(a: nat, j: nat)
    requires j <= 4 && a < LANES && !Bfe(a, j)
    ensures var h := Pow(j); var o := a - a % (2 * h); o % (2 * h) == 0 && o + 2 * h <= LANES && a < o + h
  {
    if j == 0 {
    } else if j == 1 {
    } else if j == 2 {
    } else if j == 3 {
    }
  }

  lemma StagePermutes(x: Warp, k: nat, j: nat)
    requires j <= k <= 4
    ensures multiset(Stage(x, k, j)) == multiset(x)
  {
    var y := Stage(x, k, j);
    forall a | 0 <= a < LANES && !Bfe(a, j) ensures Paired(x, y, a, Pow(j)) { PairOrdered(x, k, j, a); }
    PartialPermutes(x, y, j, LANES);
    assert Partial(x, y, j, LANES) == y;
  }

  lemma {:induction false} BeforePermutes(x: Warp, k: nat, j: int)
    requires -1 <= j <= k <= 4
    ensures multiset(Before(x, k, j)) == multiset(x)
    decreases k - j
  {
    if j < k {
      BeforePermutes(x, k, j + 1);
      StagePermutes(Before(x, k, j + 1), k, j + 1);
    }
  }

  lemma {:induction false} PhasesPermute(x: Warp, k: nat)
    requires k <= 4
    ensures multiset(Phases(x, k)) == multiset(x)
  {
    if k > 0 { PhasesPermute(x, k - 1); }
    BeforePermutes(if k == 0 then x else Phases(x, k - 1), k, -1);
  }

  predicate Ascending(x: seq<nat>) { forall a, b | 0 <= a < b < |x| :: x[a] <= x[b] }

  lemma SortedAscends(y: Warp, a: nat, b: nat)
    requires a < b < LANES && BlocksSorted(y, y[a], 4)
    ensures y[a] <= y[b]
  {
    assert Block(0, 5) && SortedAt(y, y[a], 4, 0);
  }

  /** The network sorts: for every 32-lane input the result is an ascending permutation. */
  lemma WarpSortSorts(x: Warp)
    ensures Ascending(WarpSort(x)) && multiset(WarpSort(x)) == multiset(x)
  {
    NetworkIsPhases(x);
    PhasesPermute(x, 4);
    var y := Phases(x, 4);
    forall a, b | 0 <= a < b < LANES ensures y[a] <= y[b] {
      PhasesSort(x, 4, y[a]);
      SortedAscends(y, a, b);
    }
  }
}
