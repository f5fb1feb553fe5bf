/** The RaBitQ dot product of a query in bit planes with a binary code: the vector kernel, the scalar kernel
    and what both stand for. Byte arrays are given by their bits, least significant first. */
module Rabitq {
  import opened Bits

  /** Plane `j` of a query of `nb` planes, each of `di` bytes. */
  function Plane(q: seq<bool>, di: nat, nb: nat, j: nat): (r: seq<bool>)
    requires |q| == nb * (8 * di) && j < nb
    ensures |r| == 8 * di
  {
    PlaneFits(8 * di, nb, j);
    q[j * (8 * di)..j * (8 * di) + 8 * di]
  }

  /** `v << j`. */
  function Scaled(j: nat, v: nat): nat {
    Pow2(j) * v
  }

  lemma ScaledSum(j: nat, a: nat, b: nat)
    ensures Scaled(j, a + b) == Scaled(j, a) + Scaled(j, b)
  {
  }

  ghost predicate IsInput(q: seq<bool>, x: seq<bool>, di: nat, nb: nat) {
    |q| == nb * (8 * di) && |x| == 8 * di
  }

  // ---- the dot product, plane by plane -----------------------------------------------------------

  /** Set bits that plane `j` and the code share between `lo` and `hi`. */
  ghost function Shared(q: seq<bool>, x: seq<bool>, di: nat, nb: nat, j: nat, lo: nat, hi: nat): nat
    requires IsInput(q, x, di, nb) && j < nb && lo <= hi <= 8 * di
  {
    Pop(And(Plane(q, di, nb, j)[lo..hi], x[lo..hi]))
  }

  /** The first `n` planes, each weighted by its power of two. */
  ghost function Weighted(q: seq<bool>, x: seq<bool>, di: nat, nb: nat, n: nat, lo: nat, hi: nat): nat
    requires IsInput(q, x, di, nb) && n <= nb && lo <= hi <= 8 * di
  {
    if n == 0 then 0
    else Weighted(q, x, di, nb, n - 1, lo, hi) + Scaled(n - 1, Shared(q, x, di, nb, n - 1, lo, hi))
  }

  /** Cutting both operands cuts their conjunction. */
  lemma AndCut(a: seq<bool>, b: seq<bool>, lo: nat, mid: nat, hi: nat)
    requires lo <= mid <= hi <= |a| == |b|
    ensures And(a[lo..hi], b[lo..hi]) == And(a[lo..mid], b[lo..mid]) + And(a[mid..hi], b[mid..hi])
  {
    var whole, low, high := And(a[lo..hi], b[lo..hi]), And(a[lo..mid], b[lo..mid]), And(a[mid..hi], b[mid..hi]);
    forall i | 0 <= i < |whole| ensures whole[i] == (low + high)[i] {
      assert a[lo..hi][i] == a[lo + i] && b[lo..hi][i] == b[lo + i];
      if i >= mid - lo {
        assert high[i - (mid - lo)] == (a[mid..hi][i - (mid - lo)] && b[mid..hi][i - (mid - lo)]);
      }
    }
  }

  lemma SharedSplit(q: seq<bool>, x: seq<bool>, di: nat, nb: nat, j: nat, lo: nat, mid: nat, hi: nat)
    requires IsInput(q, x, di, nb) && j < nb && lo <= mid <= hi <= 8 * di
    ensures Shared(q, x, di, nb, j, lo, hi) == Shared(q, x, di, nb, j, lo, mid) + Shared(q, x, di, nb, j, mid, hi)
  {
    var p := Plane(q, di, nb, j);
    AndCut(p, x, lo, mid, hi);
    PopConcat(And(p[lo..mid], x[lo..mid]), And(p[mid..hi], x[mid..hi]));
  }

  lemma {:induction false} WeightedSplit(q: seq<bool>, x: seq<bool>, di: nat, nb: nat, n: nat,
                                         lo: nat, mid: nat, hi: nat)
    requires IsInput(q, x, di, nb) && n <= nb && lo <= mid <= hi <= 8 * di
    ensures Weighted(q, x, di, nb, n, lo, hi) == Weighted(q, x, di, nb, n, lo, mid) + Weighted(q, x, di, nb, n, mid, hi)
  {
    if n > 0 {
      WeightedSplit(q, x, di, nb, n - 1, lo, mid, hi);
      ScaledSplit(q, x, di, nb, n - 1, lo, mid, hi);
    }
  }

  lemma ScaledSplit(q: seq<bool>, x: seq<bool>, di: nat, nb: nat, j: nat, lo: nat, mid: nat, hi: nat)
    requires IsInput(q, x, di, nb) && j < nb && lo <= mid <= hi <= 8 * di
    ensures Scaled(j, Shared(q, x, di, nb, j, lo, hi)) ==
            Scaled(j, Shared(q, x, di, nb, j, lo, mid)) + Scaled(j, Shared(q, x, di, nb, j, mid, hi))
  {
    SharedSplit(q, x, di, nb, j, lo, mid, hi);
    ScaledSum(j, Shared(q, x, di, nb, j, lo, mid), Shared(q, x, di, nb, j, mid, hi));
  }

  // ---- the dot product, position by position -----------------------------------------------------

  /** The number that the first `n` planes encode at position `p`. */
  ghost function Encoded(q: seq<bool>, di: nat, nb: nat, n: nat, p: nat): nat
    requires |q| == nb * (8 * di) && n <= nb && p < 8 * di
  {
    if n == 0 then 0
    else Encoded(q, di, nb, n - 1, p) + if Plane(q, di, nb, n - 1)[p] then Pow2(n - 1) else 0
  }

  /** The encoded numbers at the set bits among the first `n` of the code, summed. */
  ghost function CodeSum(q: seq<bool>, x: seq<bool>, di: nat, nb: nat, n: nat): nat
    requires IsInput(q, x, di, nb) && n <= 8 * di
  {
    if n == 0 then 0
    else CodeSum(q, x, di, nb, n - 1) + if x[n - 1] then Encoded(q, di, nb, nb, n - 1) else 0
  }

  lemma {:induction false} OnePosition(q: seq<bool>, x: seq<bool>, di: nat, nb: nat, n: nat, p: nat)
    requires IsInput(q, x, di, nb) && n <= nb && p < 8 * di
    ensures Weighted(q, x, di, nb, n, p, p + 1) == if x[p] then Encoded(q, di, nb, n, p) else 0
  {
    if n > 0 {
      OnePosition(q, x, di, nb, n - 1, p);
      var plane := Plane(q, di, nb, n - 1);
      assert And(plane[p..p + 1], x[p..p + 1]) == [plane[p] && x[p]];
      assert Pop([plane[p] && x[p]]) == if plane[p] && x[p] then 1 else 0;
    }
  }

  lemma {:induction false} EmptyRange(q: seq<bool>, x: seq<bool>, di: nat, nb: nat, n: nat, p: nat)
    requires IsInput(q, x, di, nb) && n <= nb && p <= 8 * di
    ensures Weighted(q, x, di, nb, n, p, p) == 0
  {
    if n > 0 {
      EmptyRange(q, x, di, nb, n - 1, p);
      assert And(Plane(q, di, nb, n - 1)[p..p], x[p..p]) == [];
    }
  }

  /** The weighted plane counts sum the encoded numbers over the set bits of the code. */
  lemma {:induction false} WeightedIsCodeSum(q: seq<bool>, x: seq<bool>, di: nat, nb: nat, n: nat)
    requires IsInput(q, x, di, nb) && n <= 8 * di
    ensures Weighted(q, x, di, nb, nb, 0, n) == CodeSum(q, x, di, nb, n)
  {
    if n == 0 {
      EmptyRange(q, x, di, nb, nb, 0);
    } else {
      WeightedIsCodeSum(q, x, di, nb, n - 1);
      WeightedSplit(q, x, di, nb, nb, 0, n - 1, n);
      OnePosition(q, x, di, nb, nb, n - 1);
    }
  }

  /** What the planes hold at position `p`, the first plane least significant: plane `j` starts at bit
      `j * 8 * di`. */
  ghost function Column(q: seq<bool>, di: nat, nb: nat, n: nat, p: nat): (r: seq<bool>)
    requires |q| == nb * (8 * di) && n <= nb && p < 8 * di
    ensures |r| == n
  {
    if n == 0 then []
    else
      PlaneFits(8 * di, nb, n - 1);
      Column(q, di, nb, n - 1, p) + [q[(n - 1) * (8 * di) + p]]
  }

  /** The encoded number is the value of these bits. */
  lemma {:induction false} EncodedIsValue(q: seq<bool>, di: nat, nb: nat, n: nat, p: nat)
    requires |q| == nb * (8 * di) && n <= nb && p < 8 * di
    ensures Encoded(q, di, nb, n, p) == Value(Column(q, di, nb, n, p))
  {
    if n > 0 {
      EncodedIsValue(q, di, nb, n - 1, p);
      ColumnStep(q, di, nb, n - 1, p);
      TopBitValue(Column(q, di, nb, n - 1, p), Plane(q, di, nb, n - 1)[p]);
    }
  }

  lemma ColumnStep(q: seq<bool>, di: nat, nb: nat, j: nat, p: nat)
    requires |q| == nb * (8 * di) && j < nb && p < 8 * di
    ensures Column(q, di, nb, j + 1, p) == Column(q, di, nb, j, p) + [Plane(q, di, nb, j)[p]]
  {
    PlaneAt(q, di, nb, j, p);
  }

  lemma PlaneAt(q: seq<bool>, di: nat, nb: nat, j: nat, p: nat)
    requires |q| == nb * (8 * di) && j < nb && p < 8 * di
    ensures j * (8 * di) + p < |q| && Plane(q, di, nb, j)[p] == q[j * (8 * di) + p]
  {
    PlaneFits(8 * di, nb, j);
    var at := j * (8 * di);
    assert q[at..at + 8 * di][p] == q[at + p];
  }

  lemma PlaneFits(width: nat, nb: nat, j: nat)
    requires j < nb
    ensures j * width + width <= nb * width
  {
    var more := nb - j - 1;
    assert nb * width == j * width + width + more * width;
  }

  lemma TopBitValue(low: seq<bool>, bit: bool)
    ensures Value(low + [bit]) == Value(low) + if bit then Pow2(|low|) else 0
  {
    ValueConcat(low, [bit]);
    assert [bit][1..] == [];
    assert Value([bit]) == if bit then 1 else 0;
  }

  /** The dot product of numbers with a binary code. */
  ghost function DotOf(numbers: seq<nat>, x: seq<bool>, n: nat): nat
    requires n <= |numbers| && n <= |x|
  {
    if n == 0 then 0 else DotOf(numbers, x, n - 1) + if x[n - 1] then numbers[n - 1] else 0
  }

  /** The planes of the query encode these numbers. */
  ghost predicate Encodes(q: seq<bool>, di: nat, nb: nat, numbers: seq<nat>) {
    |q| == nb * (8 * di) && |numbers| == 8 * di &&
    forall p :: 0 <= p < 8 * di ==> numbers[p] == Value(Column(q, di, nb, nb, p))
  }

  /** The sum over the code is the dot product of the numbers that the planes encode with the code. */
  lemma {:induction false} CodeSumIsDot(q: seq<bool>, x: seq<bool>, di: nat, nb: nat, numbers: seq<nat>, n: nat)
    requires IsInput(q, x, di, nb) && Encodes(q, di, nb, numbers) && n <= 8 * di
    ensures CodeSum(q, x, di, nb, n) == DotOf(numbers, x, n)
  {
    if n > 0 {
      CodeSumIsDot(q, x, di, nb, numbers, n - 1);
      EncodedIsValue(q, di, nb, nb, n - 1);
    }
  }

  lemma {:induction false} EncodedBound(q: seq<bool>, di: nat, nb: nat, n: nat, p: nat)
    requires |q| == nb * (8 * di) && n <= nb && p < 8 * di
    ensures Encoded(q, di, nb, n, p) <= Pow2(n) - 1
  {
    if n > 0 {
      EncodedBound(q, di, nb, n - 1, p);
    }
  }

  /** How large the dot product can be, and so which inputs cannot overflow an `int`. */
  lemma {:induction false} CodeSumBound(q: seq<bool>, x: seq<bool>, di: nat, nb: nat, n: nat)
    requires IsInput(q, x, di, nb) && n <= 8 * di
    ensures CodeSum(q, x, di, nb, n) <= n * (Pow2(nb) - 1)
  {
    if n > 0 {
      CodeSumBound(q, x, di, nb, n - 1);
      EncodedBound(q, di, nb, nb, n - 1);
      assert n * (Pow2(nb) - 1) == (n - 1) * (Pow2(nb) - 1) + (Pow2(nb) - 1);
    }
  }

  // ---- 32-bit lanes ----------------------------------------------------------------------------------

  ghost function LaneSum(v: seq<nat>): nat {
    if v == [] then 0 else LaneSum(v[..|v| - 1]) + v[|v| - 1]
  }

  /** `_mm_popcnt_epi32`, at any width. */
  function PopLanes(v: seq<bool>): (r: seq<nat>)
    ensures |r| == |v| / 32
  {
    seq(|v| / 32, i requires 0 <= i < |v| / 32 => Pop(v[32 * i..32 * i + 32]))
  }

  /** `_mm_slli_epi32`. */
  function ShiftLanes(v: seq<nat>, j: nat): (r: seq<nat>)
    ensures |r| == |v|
  {
    seq(|v|, i requires 0 <= i < |v| => Scaled(j, v[i]))
  }

  /** `_mm_add_epi32`. */
  function AddLanes(a: seq<nat>, b: seq<nat>): (r: seq<nat>)
    requires |a| == |b|
    ensures |r| == |a|
  {
    seq(|a|, i requires 0 <= i < |a| => a[i] + b[i])
  }

  lemma {:induction false} PopLanesSum(v: seq<bool>, n: nat)
    requires 32 * n <= |v|
    ensures LaneSum(PopLanes(v)[..n]) == Pop(v[..32 * n])
  {
    if n > 0 {
      PopLanesSum(v, n - 1);
      assert PopLanes(v)[..n][..n - 1] == PopLanes(v)[..n - 1];
      PopSplit(v, 0, 32 * (n - 1), 32 * n);
      assert v[32 * (n - 1)..32 * n] == v[32 * (n - 1)..32 * (n - 1) + 32];
    }
  }

  lemma {:induction false} ShiftLanesSum(v: seq<nat>, j: nat)
    ensures LaneSum(ShiftLanes(v, j)) == Scaled(j, LaneSum(v))
  {
    if v != [] {
      var n := |v| - 1;
      ShiftLanesSum(v[..n], j);
      assert ShiftLanes(v, j)[..n] == ShiftLanes(v[..n], j);
      ScaledSum(j, LaneSum(v[..n]), v[n]);
    }
  }

  lemma {:induction false} AddLanesSum(a: seq<nat>, b: seq<nat>)
    requires |a| == |b|
    ensures LaneSum(AddLanes(a, b)) == LaneSum(a) + LaneSum(b)
  {
    if a != [] {
      var n := |a| - 1;
      AddLanesSum(a[..n], b[..n]);
      assert AddLanes(a, b)[..n] == AddLanes(a[..n], b[..n]);
    }
  }

  lemma {:induction false} LaneSumConcat(a: seq<nat>, b: seq<nat>)
    ensures LaneSum(a + b) == LaneSum(a) + LaneSum(b)
  {
    if b == [] {
      assert a + b == a;
    } else {
      var n := |b| - 1;
      LaneSumConcat(a, b[..n]);
      assert (a + b)[..|a| + n] == a + b[..n];
    }
  }

  /** The upper half of the lanes is added to the lower half. */
  function Fold(v: seq<nat>): (r: seq<nat>)
    requires |v| % 2 == 0
    ensures |r| == |v| / 2
  {
    AddLanes(v[..|v| / 2], v[|v| / 2..])
  }

  lemma FoldSum(v: seq<nat>)
    requires |v| % 2 == 0
    ensures LaneSum(Fold(v)) == LaneSum(v)
  {
    var h := |v| / 2;
    AddLanesSum(v[..h], v[h..]);
    LaneSumConcat(v[..h], v[h..]);
    assert v[..h] + v[h..] == v;
  }

  // ---- the vector kernel -----------------------------------------------------------------------------

  /** A load of `count` bits at bit `at` into a vector of `width` bits, zero above: the masked load of the
      tail, and a plain load when `count == width`. */
  function Load(memory: seq<bool>, at: nat, count: nat, width: nat): (v: seq<bool>)
    requires at + count <= |memory| && count <= width
    ensures |v| == width
  {
    memory[at..at + count] + seq(width - count, _ => false)
  }

  lemma LoadsShare(a: seq<bool>, b: seq<bool>, at: nat, count: nat, width: nat)
    requires at + count <= |a| && at + count <= |b| && count <= width
    ensures Pop(And(Load(a, at, count, width), Load(b, at, count, width))) ==
            Pop(And(a[at..at + count], b[at..at + count]))
  {
    var zero := seq(width - count, _ => false);
    var low := And(a[at..at + count], b[at..at + count]);
    assert And(Load(a, at, count, width), Load(b, at, count, width)) == low + zero;
    PopConcat(low, zero);
    PopZero(zero);
  }

  /** One plane of one block. */
  lemma PlaneStep(sum: seq<nat>, q: seq<bool>, x: seq<bool>, di: nat, nb: nat, j: nat, at: nat, count: nat, width: nat)
    requires IsInput(q, x, di, nb) && j < nb && at + count <= 8 * di && count <= width == 32 * |sum|
    ensures
      var both := And(Load(Plane(q, di, nb, j), at, count, width), Load(x, at, count, width));
      LaneSum(AddLanes(sum, ShiftLanes(PopLanes(both), j))) ==
      LaneSum(sum) + Scaled(j, Shared(q, x, di, nb, j, at, at + count))
  {
    var both := And(Load(Plane(q, di, nb, j), at, count, width), Load(x, at, count, width));
    LoadsShare(Plane(q, di, nb, j), x, at, count, width);
    PopLanesSum(both, |sum|);
    assert PopLanes(both)[..|sum|] == PopLanes(both) && both[..32 * |sum|] == both;
    ShiftLanesSum(PopLanes(both), j);
    AddLanesSum(sum, ShiftLanes(PopLanes(both), j));
  }

  /** Adds `count` bits from bit `at` on of every plane to the lanes of `sum`. */
  method AddBlock(sum: seq<nat>, q: seq<bool>, x: seq<bool>, di: nat, qb: nat, at: nat, count: nat, width: nat)
    returns (r: seq<nat>)
    requires IsInput(q, x, di, qb) && at + count <= 8 * di && count <= width == 32 * |sum|
    ensures |r| == |sum| && LaneSum(r) == LaneSum(sum) + Weighted(q, x, di, qb, qb, at, at + count)
  {
    r := sum;
    var vx := Load(x, at, count, width);
    var j: nat := 0;
    while j < qb
      invariant j <= qb && |r| == |sum|
      invariant LaneSum(r) == LaneSum(sum) + Weighted(q, x, di, qb, j, at, at + count)
    {
      var vq := Load(Plane(q, di, qb, j), at, count, width);
      PlaneStep(r, q, x, di, qb, j, at, count, width);
      r := AddLanes(r, ShiftLanes(PopLanes(And(vq, vx)), j));
      j := j + 1;
    }
  }

  lemma {:induction false} ZeroLanes(n: nat)
    ensures LaneSum(seq(n, _ => 0)) == 0
  {
    if n > 0 {
      ZeroLanes(n - 1);
      assert seq(n, _ => 0)[..n - 1] == seq(n - 1, _ => 0);
    }
  }

  /** All whole blocks of 512 bits. */
  method WholeBlocks(q: seq<bool>, x: seq<bool>, di: nat, qb: nat, blocks: nat) returns (sum: seq<nat>)
    requires IsInput(q, x, di, qb) && 512 * blocks <= 8 * di
    ensures |sum| == 16 && LaneSum(sum) == Weighted(q, x, di, qb, qb, 0, 512 * blocks)
  {
    sum := seq(16, _ => 0);
    ZeroLanes(16);
    EmptyRange(q, x, di, qb, qb, 0);
    var b: nat := 0;
    while b < blocks
      invariant b <= blocks && |sum| == 16 && LaneSum(sum) == Weighted(q, x, di, qb, qb, 0, 512 * b)
    {
      sum := NextBlock(sum, q, x, di, qb, 512 * b, 512, 512);
      b := b + 1;
    }
  }

  /** A block of `count` bits that follows those already summed, if there are any. */
  method NextBlock(sum: seq<nat>, q: seq<bool>, x: seq<bool>, di: nat, qb: nat, at: nat, count: nat, width: nat)
    returns (r: seq<nat>)
    requires IsInput(q, x, di, qb) && at + count <= 8 * di && count <= width == 32 * |sum|
    requires LaneSum(sum) == Weighted(q, x, di, qb, qb, 0, at)
    ensures |r| == |sum| && LaneSum(r) == Weighted(q, x, di, qb, qb, 0, at + count)
  {
    r := sum;
    if count != 0 {
      WeightedSplit(q, x, di, qb, qb, 0, at, at + count);
      r := AddBlock(sum, q, x, di, qb, at, count, width);
    }
  }

  lemma LastOf256(d: nat)
    ensures d / 256 * 256 - d / 512 * 512 in {0, 256}
  {
  }

  lemma LastOf128(d: nat)
    ensures d / 128 * 128 - d / 256 * 256 in {0, 128}
  {
  }

  /** After the whole blocks come at most one of 256 bits, one of 128 and a tail of at most 16 bytes, up to
      the last byte. */
  lemma BlocksTile(d: nat)
    ensures d / 256 * 256 - d / 512 * 512 in {0, 256} && d / 128 * 128 - d / 256 * 256 in {0, 128}
    ensures d / 128 * 128 <= d && (d - d / 128 * 128 + 7) / 8 <= 16
    ensures d / 128 * 128 + 8 * ((d - d / 128 * 128 + 7) / 8) == 8 * ByteSize(d)
  {
    LastOf256(d);
    LastOf128(d);
    var a := d / 128;
    var r := d - 128 * a;
    assert (d + 7) / 8 == 16 * a + (r + 7) / 8;
  }

  /** The kernel for `qb` planes: blocks of 512 bits, at most one of 256 and one of 128, and a masked tail. */
  method DotPlanes(q: seq<bool>, x: seq<bool>, d: nat, qb: nat) returns (dot: nat)
    requires IsInput(q, x, ByteSize(d), qb)
    ensures dot == Weighted(q, x, ByteSize(d), qb, qb, 0, 8 * ByteSize(d))
  {
    var d512, d256, d128 := d / 512 * 512, d / 256 * 256, d / 128 * 128;
    BlocksTile(d);
    dot := DotBlocks(q, x, ByteSize(d), qb, d / 512, d256 - d512, d128 - d256, (d - d128 + 7) / 8);
  }

  method DotBlocks(q: seq<bool>, x: seq<bool>, di: nat, qb: nat, blocks: nat, n256: nat, n128: nat, tail: nat)
    returns (dot: nat)
    requires IsInput(q, x, di, qb) && n256 <= 256 && n128 <= 128 && tail <= 16
    requires 512 * blocks + n256 + n128 + 8 * tail == 8 * di
    ensures dot == Weighted(q, x, di, qb, qb, 0, 8 * di)
  {
    var sum512 := WholeBlocks(q, x, di, qb, blocks);
    FoldSum(sum512);
    var sum256 := NextBlock(Fold(sum512), q, x, di, qb, 512 * blocks, n256, 256);
    FoldSum(sum256);
    var sum128 := NextBlock(Fold(sum256), q, x, di, qb, 512 * blocks + n256, n128, 128);
    sum128 := NextBlock(sum128, q, x, di, qb, 512 * blocks + n256 + n128, 8 * tail, 128);
    dot := sum128[0] + sum128[1] + sum128[2] + sum128[3];
    FourLanes(sum128);
  }

  lemma FourLanes(v: seq<nat>)
    requires |v| == 4
    ensures LaneSum(v) == v[0] + v[1] + v[2] + v[3]
  {
    assert LaneSum(v) == LaneSum(v[..3]) + v[3];
    assert v[..3][..2] == v[..2] && LaneSum(v[..3]) == LaneSum(v[..2]) + v[2];
    assert v[..2][..1] == v[..1] && LaneSum(v[..2]) == LaneSum(v[..1]) + v[1];
    assert v[..1][..0] == [] && LaneSum(v[..1]) == v[0];
  }

  // ---- the scalar kernel and the dispatch ---------------------------------------------------------------

  method DotRef(q: seq<bool>, x: seq<bool>, d: nat, nb: nat) returns (dot: nat)
    requires IsInput(q, x, ByteSize(d), nb)
    ensures dot == Weighted(q, x, ByteSize(d), nb, nb, 0, 8 * ByteSize(d))
  {
    var di := ByteSize(d);
    dot := 0;
    var j: nat := 0;
    while j < nb
      invariant j <= nb && dot == Weighted(q, x, di, nb, j, 0, 8 * di)
    {
      var count := CountPlane(Plane(q, di, nb, j), x, di);
      dot := dot + Scaled(j, count);
      j := j + 1;
    }
  }

  lemma CountStep(plane: seq<bool>, x: seq<bool>, lo: nat, hi: nat)
    requires lo <= hi <= |plane| == |x|
    ensures Pop(And(plane[..hi], x[..hi])) == Pop(And(plane[..lo], x[..lo])) + Pop(And(plane[lo..hi], x[lo..hi]))
  {
    AndCut(plane, x, 0, lo, hi);
    PopConcat(And(plane[..lo], x[..lo]), And(plane[lo..hi], x[lo..hi]));
  }

  /** 64-bit words, then the bytes left over. */
  method CountPlane(plane: seq<bool>, x: seq<bool>, di: nat) returns (count: nat)
    requires |plane| == |x| == 8 * di
    ensures count == Pop(And(plane[0..8 * di], x[0..8 * di]))
  {
    count := 0;
    var w: nat, words: nat := 0, di / 8;
    while w < words
      invariant w <= words && count == Pop(And(plane[..64 * w], x[..64 * w]))
    {
      count := CountRange(plane, x, 64 * w, 64 * w + 64, count);
      w := w + 1;
    }
    var i: nat := 8 * words;
    while i < di
      invariant i <= di && count == Pop(And(plane[..8 * i], x[..8 * i]))
    {
      count := CountRange(plane, x, 8 * i, 8 * i + 8, count);
      i := i + 1;
    }
  }

  /** One load of a word or a byte of both, their conjunction and its population count. */
  method CountRange(plane: seq<bool>, x: seq<bool>, lo: nat, hi: nat, before: nat) returns (count: nat)
    requires lo <= hi <= |plane| == |x| && before == Pop(And(plane[..lo], x[..lo]))
    ensures count == Pop(And(plane[..hi], x[..hi]))
  {
    CountStep(plane, x, lo, hi);
    count := before + Pop(And(plane[lo..hi], x[lo..hi]));
  }

  /** The dispatched kernel sums the encoded numbers over the set bits of the code, for one to eight planes;
      for any other number of planes it returns 0. */
  method DotDispatched(q: seq<bool>, x: seq<bool>, d: nat, nb: nat) returns (dot: nat)
    requires IsInput(q, x, ByteSize(d), nb)
    ensures dot == if 1 <= nb <= 8 then CodeSum(q, x, ByteSize(d), nb, 8 * ByteSize(d)) else 0
  {
    dot := 0;
    if 1 <= nb <= 8 {
      dot := DotPlanes(q, x, d, nb);
      WeightedIsCodeSum(q, x, ByteSize(d), nb, 8 * ByteSize(d));
    }
  }

  /** The code and some plane of the query have a set bit in common. */
  ghost predicate SharesBit(q: seq<bool>, x: seq<bool>, di: nat, nb: nat)
    requires IsInput(q, x, di, nb)
  {
    exists j, p :: 0 <= j < nb && 0 <= p < 8 * di && Meets(q, x, di, nb, j, p)
  }

  ghost predicate Meets(q: seq<bool>, x: seq<bool>, di: nat, nb: nat, j: nat, p: nat)
    requires IsInput(q, x, di, nb) && j < nb && p < 8 * di
  {
    x[p] && Plane(q, di, nb, j)[p]
  }

  lemma {:induction false} EncodedPositive(q: seq<bool>, di: nat, nb: nat, n: nat, p: nat)
    requires |q| == nb * (8 * di) && n <= nb && p < 8 * di
    ensures Encoded(q, di, nb, n, p) > 0 <==> exists j :: 0 <= j < n && Plane(q, di, nb, j)[p]
  {
    if n > 0 {
      EncodedPositive(q, di, nb, n - 1, p);
    }
  }

  lemma {:induction false} CodeSumPositive(q: seq<bool>, x: seq<bool>, di: nat, nb: nat, n: nat)
    requires IsInput(q, x, di, nb) && n <= 8 * di
    ensures CodeSum(q, x, di, nb, n) > 0 <==> exists j, p :: 0 <= j < nb && 0 <= p < n && Meets(q, x, di, nb, j, p)
  {
    if n > 0 {
      CodeSumPositive(q, x, di, nb, n - 1);
      EncodedPositive(q, di, nb, nb, n - 1);
      if x[n - 1] && Encoded(q, di, nb, nb, n - 1) > 0 {
        var j :| 0 <= j < nb && Plane(q, di, nb, j)[n - 1];
        assert Meets(q, x, di, nb, j, n - 1);
      }
    }
  }

  /** The dispatched kernel and the scalar kernel agree exactly when there are at most eight planes or the
      code shares no set bit with any of them; neither exceeds the bound, so a bound below 2^31 rules out
      overflow. */
  lemma KernelsAgree(q: seq<bool>, x: seq<bool>, d: nat, nb: nat, dispatched: nat, scalar: nat)
    requires IsInput(q, x, ByteSize(d), nb)
    requires dispatched == if 1 <= nb <= 8 then CodeSum(q, x, ByteSize(d), nb, 8 * ByteSize(d)) else 0
    requires scalar == Weighted(q, x, ByteSize(d), nb, nb, 0, 8 * ByteSize(d))
    ensures dispatched == scalar <==> nb <= 8 || !SharesBit(q, x, ByteSize(d), nb)
    ensures scalar == CodeSum(q, x, ByteSize(d), nb, 8 * ByteSize(d))
    ensures dispatched <= scalar <= 8 * ByteSize(d) * (Pow2(nb) - 1)
  {
    var di := ByteSize(d);
    WeightedIsCodeSum(q, x, di, nb, 8 * di);
    CodeSumBound(q, x, di, nb, 8 * di);
    CodeSumPositive(q, x, di, nb, 8 * di);
    assert nb == 0 ==> Weighted(q, x, di, nb, nb, 0, 8 * di) == 0;
  }

  /** Nine planes of one byte, all bits set as in the code: the product is not 0, as the scalar kernel finds,
      and the dispatched one returns 0. */
  lemma NineMayDiffer(q: seq<bool>, x: seq<bool>)
    requires |q| == 72 && |x| == 8 && forall i :: 0 <= i < 72 ==> q[i]
    requires forall i :: 0 <= i < 8 ==> x[i]
    ensures IsInput(q, x, ByteSize(8), 9) && Weighted(q, x, ByteSize(8), 9, 9, 0, 8) > 0
  {
    assert Meets(q, x, 1, 9, 0, 0);
    CodeSumPositive(q, x, 1, 9, 8);
    WeightedIsCodeSum(q, x, 1, 9, 8);
  }
}
