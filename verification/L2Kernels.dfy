/** Squared L2 distances from one vector to `ny` rows: the small-dimension vector kernels, the batch-of-4
    kernel and the nearest row, in exact arithmetic. */
module L2Kernels {
  import opened Bits

  /** `(a - b) * (a - b)`. */
  function Sq(a: real, b: real): real {
    (a - b) * (a - b)
  }

  lemma SqSymmetric(a: real, b: real)
    ensures Sq(a, b) == Sq(b, a)
  {
  }

  /** Row `i` of `ny` rows of `d` numbers. */
  function Row(y: seq<real>, d: nat, ny: nat, i: nat): (r: seq<real>)
    requires |y| == ny * d && i < ny
    ensures |r| == d
  {
    assert i * d + d == (i + 1) * d <= ny * d;
    y[i * d..i * d + d]
  }

  /** The squared distance over the first `n` coordinates. */
  function Dist(x: seq<real>, row: seq<real>, n: nat): real
    requires n <= |x| && n <= |row|
  {
    if n == 0 then 0.0 else Dist(x, row, n - 1) + Sq(x[n - 1], row[n - 1])
  }

  function RowDist(x: seq<real>, y: seq<real>, d: nat, ny: nat, i: nat): real
    requires |x| == d && |y| == ny * d && i < ny
  {
    Dist(x, Row(y, d, ny, i), d)
  }

  /** The inner product of `x` with `n` numbers of `y` from `at` on. */
  ghost function Inner(x: seq<real>, y: seq<real>, at: nat, n: nat): real
    requires n <= |x| && at + n <= |y|
  {
    if n == 0 then 0.0 else Inner(x, y, at, n - 1) + x[n - 1] * y[at + n - 1]
  }

  /** The sum of squares of `n` numbers of `y` from `at` on. */
  ghost function Norm(y: seq<real>, at: nat, n: nat): real
    requires at + n <= |y|
  {
    if n == 0 then 0.0 else Norm(y, at, n - 1) + y[at + n - 1] * y[at + n - 1]
  }

  lemma {:induction false} DistExpands(x: seq<real>, row: seq<real>, y: seq<real>, at: nat, n: nat)
    requires n <= |x| == |row| && at + |row| <= |y| && row == y[at..at + |row|]
    ensures Dist(x, row, n) == Norm(x, 0, n) - 2.0 * Inner(x, y, at, n) + Norm(y, at, n)
  {
    if n > 0 {
      DistExpands(x, row, y, at, n - 1);
      var a, b := x[n - 1], y[at + n - 1];
      assert row[n - 1] == b;
      SqExpands(a, b);
      AddExpanded(Dist(x, row, n - 1), Norm(x, 0, n - 1), Inner(x, y, at, n - 1), Norm(y, at, n - 1),
                  Sq(a, b), a * a, a * b, b * b);
    }
  }

  lemma AddExpanded(dist: real, xx: real, xy: real, yy: real, s: real, aa: real, ab: real, bb: real)
    requires dist == xx - 2.0 * xy + yy && s == aa - 2.0 * ab + bb
    ensures dist + s == (xx + aa) - 2.0 * (xy + ab) + (yy + bb)
  {
  }

  lemma RowFits(ny: nat, d: nat, i: nat)
    requires i < ny
    ensures i * d + d <= ny * d
  {
    var more := ny - i - 1;
    assert ny * d == i * d + d + more * d;
  }

  lemma SqExpands(a: real, b: real)
    ensures Sq(a, b) == a * a - 2.0 * (a * b) + b * b
  {
  }

  /** The distance by norms and the inner product with the numbers that start at `i * d`. */
  lemma RowDistExpands(x: seq<real>, y: seq<real>, d: nat, ny: nat, i: nat)
    requires |x| == d && |y| == ny * d && i < ny
    ensures i * d + d <= |y|
    ensures RowDist(x, y, d, ny, i) == Norm(x, 0, d) - 2.0 * Inner(x, y, i * d, d) + Norm(y, i * d, d)
  {
    RowFits(ny, d, i);
    DistExpands(x, Row(y, d, ny, i), y, i * d, d);
  }

  /** The first `n` distances are in place and the rest of the array is as it was. */
  ghost predicate Written(dis: seq<real>, was: seq<real>, x: seq<real>, y: seq<real>, d: nat, ny: nat, n: nat)
    requires |x| == d && |y| == ny * d
  {
    && n <= ny <= |dis| == |was|
    && (forall i :: 0 <= i < n ==> dis[i] == RowDist(x, y, d, ny, i))
    && (forall i :: n <= i < |dis| ==> dis[i] == was[i])
  }

  // ---- vectors of 8 and 4 lanes --------------------------------------------------------------------

  type Vec8 = v: seq<real> | |v| == 8 witness [0.0, 0.0, 0.0, 0.0, 0.0, 0.0, 0.0, 0.0]
  type Vec4 = v: seq<real> | |v| == 4 witness [0.0, 0.0, 0.0, 0.0]

  /** `_mm256_hadd_ps`: sums of neighbours, the 128-bit halves apart. */
  function HAdd8(a: Vec8, b: Vec8): Vec8 {
    [a[0] + a[1], a[2] + a[3], b[0] + b[1], b[2] + b[3], a[4] + a[5], a[6] + a[7], b[4] + b[5], b[6] + b[7]]
  }

  /** `_mm_hadd_ps`. */
  function HAdd4(a: Vec4, b: Vec4): Vec4 {
    [a[0] + a[1], a[2] + a[3], b[0] + b[1], b[2] + b[3]]
  }

  /** `_mm256_permutevar8x32_ps` with the indices 0, 1, 4, 5, 2, 3, 6, 7. */
  function PermutePairs(v: Vec8): Vec8 {
    [v[0], v[1], v[4], v[5], v[2], v[3], v[6], v[7]]
  }

  /** `_mm256_permutevar8x32_ps` with the indices 0, 4, 1, 5, 2, 6, 3, 7. */
  function PermuteHalves(v: Vec8): Vec8 {
    [v[0], v[4], v[1], v[5], v[2], v[6], v[3], v[7]]
  }

  /** Loads 8 numbers, subtracts `mx` and squares. */
  function SquaredDiffs(y: seq<real>, at: nat, mx: Vec8): Vec8
    requires at + 8 <= |y|
  {
    seq(8, k requires 0 <= k < 8 => Sq(y[at + k], mx[k]))
  }

  method Store(dis: array<real>, at: nat, v: seq<real>)
    requires at + |v| <= dis.Length
    modifies dis
    ensures forall i :: 0 <= i < dis.Length ==> dis[i] == if at <= i < at + |v| then v[i - at] else old(dis[i])
  {
    forall i | 0 <= i < |v| {
      dis[at + i] := v[i];
    }
  }

  /** `v` are the distances of rows `first`, `first + 1` and so on. */
  ghost predicate AreDistances(v: seq<real>, x: seq<real>, y: seq<real>, d: nat, ny: nat, first: nat)
    requires |x| == d && |y| == ny * d
  {
    first + |v| <= ny && forall k :: 0 <= k < |v| ==> v[k] == RowDist(x, y, d, ny, first + k)
  }

  /** A store of the next distances. */
  method StoreNext(dis: array<real>, at: nat, v: seq<real>, ghost was: seq<real>,
                   x: seq<real>, y: seq<real>, d: nat, ny: nat)
    requires |x| == d && |y| == ny * d && Written(dis[..], was, x, y, d, ny, at)
    requires AreDistances(v, x, y, d, ny, at)
    modifies dis
    ensures Written(dis[..], was, x, y, d, ny, at + |v|)
  {
    Store(dis, at, v);
    forall i | at <= i < at + |v| ensures dis[i] == RowDist(x, y, d, ny, i) {
      assert v[i - at] == RowDist(x, y, d, ny, at + (i - at));
    }
  }

  // ---- two dimensions --------------------------------------------------------------------------------

  lemma RowDist2(x: seq<real>, y: seq<real>, ny: nat, i: nat)
    requires |x| == 2 && |y| == ny * 2 && i < ny
    ensures RowDist(x, y, 2, ny, i) == Sq(y[2 * i], x[0]) + Sq(y[2 * i + 1], x[1])
  {
    var row := Row(y, 2, ny, i);
    assert row[0] == y[2 * i] && row[1] == y[2 * i + 1];
    assert Dist(x, row, 1) == Sq(x[0], row[0]);
    SqSymmetric(x[0], row[0]);
    SqSymmetric(x[1], row[1]);
  }

  function Twice4(x: seq<real>): Vec8
    requires |x| == 2
  {
    [x[0], x[1], x[0], x[1], x[0], x[1], x[0], x[1]]
  }

  /** The sums of neighbouring lanes. */
  function Pairs(m: Vec8): (r: seq<real>)
    ensures |r| == 4
  {
    [m[0] + m[1], m[2] + m[3], m[4] + m[5], m[6] + m[7]]
  }

  /** The lanes of four rows, added in pairs, are their distances. */
  lemma PairsAreDistances(x: seq<real>, y: seq<real>, ny: nat, first: nat)
    requires |x| == 2 && |y| == ny * 2 && first + 4 <= ny
    ensures AreDistances(Pairs(SquaredDiffs(y, 2 * first, Twice4(x))), x, y, 2, ny, first)
  {
    RowDist2(x, y, ny, first);
    RowDist2(x, y, ny, first + 1);
    RowDist2(x, y, ny, first + 2);
    RowDist2(x, y, ny, first + 3);
  }

  lemma JoinDistances(a: seq<real>, b: seq<real>, x: seq<real>, y: seq<real>, d: nat, ny: nat, first: nat)
    requires |x| == d && |y| == ny * d
    requires AreDistances(a, x, y, d, ny, first) && AreDistances(b, x, y, d, ny, first + |a|)
    ensures AreDistances(a + b, x, y, d, ny, first)
  {
    forall k | 0 <= k < |a + b| ensures (a + b)[k] == RowDist(x, y, d, ny, first + k) {
      if k >= |a| {
        assert b[k - |a|] == RowDist(x, y, d, ny, first + |a| + (k - |a|));
      }
    }
  }

  /** A horizontal addition and a permutation put the pair sums in order. */
  lemma PairsInOrder(a: Vec8, b: Vec8)
    ensures PermutePairs(HAdd8(a, b)) == Pairs(a) + Pairs(b)
  {
  }

  lemma EightRows2(x: seq<real>, y: seq<real>, ny: nat, first: nat, a: Vec8, b: Vec8)
    requires |x| == 2 && |y| == ny * 2 && first + 8 <= ny
    requires a == SquaredDiffs(y, 2 * first, Twice4(x)) && b == SquaredDiffs(y, 2 * first + 8, Twice4(x))
    ensures AreDistances(PermutePairs(HAdd8(a, b)), x, y, 2, ny, first)
  {
    PairsAreDistances(x, y, ny, first);
    PairsAreDistances(x, y, ny, first + 4);
    JoinDistances(Pairs(a), Pairs(b), x, y, 2, ny, first);
    PairsInOrder(a, b);
  }

  lemma OneRow2(x: seq<real>, y: seq<real>, ny: nat, i: nat)
    requires |x| == 2 && |y| == ny * 2 && i < ny
    ensures AreDistances([Sq(x[0], y[2 * i]) + Sq(x[1], y[2 * i + 1])], x, y, 2, ny, i)
  {
    RowDist2(x, y, ny, i);
    SqSymmetric(x[0], y[2 * i]);
    SqSymmetric(x[1], y[2 * i + 1]);
  }

  /** The distances of eight rows, from two vectors of differences. */
  method Eight2(x: seq<real>, y: seq<real>, ny: nat, first: nat) returns (r: Vec8)
    requires |x| == 2 && |y| == ny * 2 && first + 8 <= ny
    ensures AreDistances(r, x, y, 2, ny, first)
  {
    var mx := Twice4(x);
    var my1, my2 := SquaredDiffs(y, 2 * first, mx), SquaredDiffs(y, 2 * first + 8, mx);
    EightRows2(x, y, ny, first, my1, my2);
    r := PermutePairs(HAdd8(my1, my2));
  }

  method Sixteen2(dis: array<real>, x: seq<real>, y: seq<real>, ny: nat, done: nat, ghost was: seq<real>)
    requires |x| == 2 && |y| == ny * 2 && done + 16 <= ny && Written(dis[..], was, x, y, 2, ny, done)
    modifies dis
    ensures Written(dis[..], was, x, y, 2, ny, done + 16)
  {
    var my1 := Eight2(x, y, ny, done);
    var my3 := Eight2(x, y, ny, done + 8);
    StoreNext(dis, done, my1, was, x, y, 2, ny);
    StoreNext(dis, done + 8, my3, was, x, y, 2, ny);
  }

  method Four2(dis: array<real>, x: seq<real>, y: seq<real>, ny: nat, done: nat, ghost was: seq<real>)
    requires |x| == 2 && |y| == ny * 2 && done + 4 <= ny && Written(dis[..], was, x, y, 2, ny, done)
    modifies dis
    ensures Written(dis[..], was, x, y, 2, ny, done + 4)
  {
    var my1 := SquaredDiffs(y, 2 * done, Twice4(x));
    PairsAreDistances(x, y, ny, done);
    PairsInOrder(my1, my1);
    StoreNext(dis, done, PermutePairs(HAdd8(my1, my1))[..4], was, x, y, 2, ny);
  }

  method One2(dis: array<real>, x: seq<real>, y: seq<real>, ny: nat, done: nat, ghost was: seq<real>)
    requires |x| == 2 && |y| == ny * 2 && done + 1 <= ny && Written(dis[..], was, x, y, 2, ny, done)
    modifies dis
    ensures Written(dis[..], was, x, y, 2, ny, done + 1)
  {
    OneRow2(x, y, ny, done);
    StoreNext(dis, done, [Sq(x[0], y[2 * done]) + Sq(x[1], y[2 * done + 1])], was, x, y, 2, ny);
  }

  /** Two dimensions: 16, then 4, then one row at a time. */
  method Distances2(dis: array<real>, x: seq<real>, y: seq<real>, ny: nat)
    requires |x| == 2 && |y| == ny * 2 && ny <= dis.Length
    modifies dis
    ensures Written(dis[..], old(dis[..]), x, y, 2, ny, ny)
  {
    ghost var was := dis[..];
    var done: nat := 0;
    while ny - done >= 16
      invariant done <= ny && Written(dis[..], was, x, y, 2, ny, done)
    {
      Sixteen2(dis, x, y, ny, done, was);
      done := done + 16;
    }
    while ny - done >= 4
      invariant done <= ny && Written(dis[..], was, x, y, 2, ny, done)
    {
      Four2(dis, x, y, ny, done, was);
      done := done + 4;
    }
    while done < ny
      invariant done <= ny && Written(dis[..], was, x, y, 2, ny, done)
    {
      One2(dis, x, y, ny, done, was);
      done := done + 1;
    }
  }

  // ---- four dimensions -------------------------------------------------------------------------------

  lemma RowDist4(x: seq<real>, y: seq<real>, ny: nat, i: nat)
    requires |x| == 4 && |y| == ny * 4 && i < ny
    ensures RowDist(x, y, 4, ny, i) ==
            Sq(y[4 * i], x[0]) + Sq(y[4 * i + 1], x[1]) + Sq(y[4 * i + 2], x[2]) + Sq(y[4 * i + 3], x[3])
  {
    var row := Row(y, 4, ny, i);
    assert row[0] == y[4 * i] && row[1] == y[4 * i + 1] && row[2] == y[4 * i + 2] && row[3] == y[4 * i + 3];
    SqSymmetric(x[0], row[0]);
    SqSymmetric(x[1], row[1]);
    SqSymmetric(x[2], row[2]);
    SqSymmetric(x[3], row[3]);
    assert Dist(x, row, 1) == Sq(x[0], row[0]);
    assert Dist(x, row, 2) == Dist(x, row, 1) + Sq(x[1], row[1]);
    assert Dist(x, row, 3) == Dist(x, row, 2) + Sq(x[2], row[2]);
  }

  function Twice(x: seq<real>): Vec8
    requires |x| == 4
  {
    x + x
  }

  /** The lanes of two rows, added in fours, are their distances. */
  lemma FoursAreDistances(x: seq<real>, y: seq<real>, ny: nat, first: nat)
    requires |x| == 4 && |y| == ny * 4 && first + 2 <= ny
    ensures
      var m := SquaredDiffs(y, 4 * first, Twice(x));
      AreDistances(Fours(m), x, y, 4, ny, first)
  {
    RowDist4(x, y, ny, first);
    RowDist4(x, y, ny, first + 1);
  }

  /** The sums of the two halves of eight lanes. */
  function Fours(m: Vec8): (r: seq<real>)
    ensures |r| == 2
  {
    [m[0] + m[1] + (m[2] + m[3]), m[4] + m[5] + (m[6] + m[7])]
  }

  lemma FourRows4(x: seq<real>, y: seq<real>, ny: nat, first: nat)
    requires |x| == 4 && |y| == ny * 4 && first + 4 <= ny
    ensures AreDistances(Fours(SquaredDiffs(y, 4 * first, Twice(x))) + Fours(SquaredDiffs(y, 4 * first + 8, Twice(x))),
                         x, y, 4, ny, first)
  {
    FoursAreDistances(x, y, ny, first);
    FoursAreDistances(x, y, ny, first + 2);
    JoinDistances(Fours(SquaredDiffs(y, 4 * first, Twice(x))), Fours(SquaredDiffs(y, 4 * first + 8, Twice(x))),
                  x, y, 4, ny, first);
  }

  /** Two levels of horizontal additions and a permutation put eight distances in order. */
  lemma EightRows4(x: seq<real>, y: seq<real>, ny: nat, first: nat, my1: Vec8, my2: Vec8, my3: Vec8, my4: Vec8)
    requires |x| == 4 && |y| == ny * 4 && first + 8 <= ny
    requires my1 == SquaredDiffs(y, 4 * first, Twice(x)) && my2 == SquaredDiffs(y, 4 * first + 8, Twice(x))
    requires my3 == SquaredDiffs(y, 4 * first + 16, Twice(x)) && my4 == SquaredDiffs(y, 4 * first + 24, Twice(x))
    ensures AreDistances(PermuteHalves(HAdd8(HAdd8(my1, my2), HAdd8(my3, my4))), x, y, 4, ny, first)
  {
    FourRows4(x, y, ny, first);
    FourRows4(x, y, ny, first + 4);
    JoinDistances(Fours(my1) + Fours(my2), Fours(my3) + Fours(my4), x, y, 4, ny, first);
    HalvesInOrder(my1, my2, my3, my4);
  }

  lemma HalvesInOrder(a: Vec8, b: Vec8, c: Vec8, d: Vec8)
    ensures PermuteHalves(HAdd8(HAdd8(a, b), HAdd8(c, d))) == Fours(a) + Fours(b) + (Fours(c) + Fours(d))
  {
  }

  lemma OneRow4(x: seq<real>, y: seq<real>, ny: nat, i: nat)
    requires |x| == 4 && |y| == ny * 4 && i < ny
    ensures Sq(x[0], y[4 * i]) + Sq(x[2], y[4 * i + 2]) + (Sq(x[1], y[4 * i + 1]) + Sq(x[3], y[4 * i + 3])) ==
            RowDist(x, y, 4, ny, i)
  {
    RowDist4(x, y, ny, i);
    SqSymmetric(x[0], y[4 * i]);
    SqSymmetric(x[1], y[4 * i + 1]);
    SqSymmetric(x[2], y[4 * i + 2]);
    SqSymmetric(x[3], y[4 * i + 3]);
  }

  method Eight4(dis: array<real>, x: seq<real>, y: seq<real>, ny: nat, done: nat, ghost was: seq<real>)
    requires |x| == 4 && |y| == ny * 4 && done + 8 <= ny && Written(dis[..], was, x, y, 4, ny, done)
    modifies dis
    ensures Written(dis[..], was, x, y, 4, ny, done + 8)
  {
    var mx, at := Twice(x), 4 * done;
    var my1, my2 := SquaredDiffs(y, at, mx), SquaredDiffs(y, at + 8, mx);
    var my3, my4 := SquaredDiffs(y, at + 16, mx), SquaredDiffs(y, at + 24, mx);
    EightRows4(x, y, ny, done, my1, my2, my3, my4);
    StoreNext(dis, done, PermuteHalves(HAdd8(HAdd8(my1, my2), HAdd8(my3, my4))), was, x, y, 4, ny);
  }

  method Four4(dis: array<real>, x: seq<real>, y: seq<real>, ny: nat, done: nat, ghost was: seq<real>)
    requires |x| == 4 && |y| == ny * 4 && done + 4 <= ny && Written(dis[..], was, x, y, 4, ny, done)
    modifies dis
    ensures Written(dis[..], was, x, y, 4, ny, done + 4)
  {
    var mx, at := Twice(x), 4 * done;
    var my1, my2 := SquaredDiffs(y, at, mx), SquaredDiffs(y, at + 8, mx);
    FourRows4(x, y, ny, done);
    HalvesTwice(my1, my2);
    var sums := HAdd8(my1, my2);
    StoreNext(dis, done, PermuteHalves(HAdd8(sums, sums))[..4], was, x, y, 4, ny);
  }

  lemma HalvesTwice(a: Vec8, b: Vec8)
    ensures PermuteHalves(HAdd8(HAdd8(a, b), HAdd8(a, b)))[..4] == Fours(a) + Fours(b)
  {
  }

  method Two4(dis: array<real>, x: seq<real>, y: seq<real>, ny: nat, done: nat, ghost was: seq<real>)
    requires |x| == 4 && |y| == ny * 4 && done + 2 <= ny && Written(dis[..], was, x, y, 4, ny, done)
    modifies dis
    ensures Written(dis[..], was, x, y, 4, ny, done + 2)
  {
    var my1 := SquaredDiffs(y, 4 * done, Twice(x));
    FoursAreDistances(x, y, ny, done);
    var sums := SumHalves(my1);
    StoreNext(dis, done, sums, was, x, y, 4, ny);
  }

  /** Two horizontal additions of each half. */
  method SumHalves(v: Vec8) returns (r: seq<real>)
    ensures r == Fours(v)
  {
    var low: Vec4, high: Vec4 := v[..4], v[4..];
    var sumLow, sumHigh := HAdd4(low, low), HAdd4(high, high);
    sumLow, sumHigh := HAdd4(sumLow, sumLow), HAdd4(sumHigh, sumHigh);
    r := [sumLow[0], sumHigh[0]];
  }

  method One4(dis: array<real>, x: seq<real>, y: seq<real>, ny: nat, done: nat, ghost was: seq<real>)
    requires |x| == 4 && |y| == ny * 4 && done + 1 <= ny && Written(dis[..], was, x, y, 4, ny, done)
    modifies dis
    ensures Written(dis[..], was, x, y, 4, ny, done + 1)
  {
    var at := 4 * done;
    var dis1 := Sq(x[0], y[at]) + Sq(x[2], y[at + 2]);
    var dis2 := Sq(x[1], y[at + 1]) + Sq(x[3], y[at + 3]);
    OneRow4(x, y, ny, done);
    StoreNext(dis, done, [dis1 + dis2], was, x, y, 4, ny);
  }

  /** Four dimensions: 8 rows at a time, then at most one group of 4, one of 2 and one row. */
  method Distances4(dis: array<real>, x: seq<real>, y: seq<real>, ny: nat)
    requires |x| == 4 && |y| == ny * 4 && ny <= dis.Length
    modifies dis
    ensures Written(dis[..], old(dis[..]), x, y, 4, ny, ny)
  {
    ghost var was := dis[..];
    var done: nat := 0;
    while ny - done >= 8
      invariant done <= ny && Written(dis[..], was, x, y, 4, ny, done)
    {
      Eight4(dis, x, y, ny, done, was);
      done := done + 8;
    }
    if ny - done >= 4 {
      Four4(dis, x, y, ny, done, was);
      done := done + 4;
    }
    if ny - done >= 2 {
      Two4(dis, x, y, ny, done, was);
      done := done + 2;
    }
    if ny - done > 0 {
      One4(dis, x, y, ny, done, was);
    }
  }

  // ---- any dimension -----------------------------------------------------------------------------------

  method L2sqr(x: seq<real>, row: seq<real>) returns (r: real)
    requires |x| == |row|
    ensures r == Dist(x, row, |x|)
  {
    r := 0.0;
    var k: nat := 0;
    while k < |x|
      invariant k <= |x| && r == Dist(x, row, k)
    {
      var tmp := x[k] - row[k];
      r := r + tmp * tmp;
      k := k + 1;
    }
  }

  /** Four rows at a time, coordinate by coordinate. */
  method L2sqrBatch4(x: seq<real>, y0: seq<real>, y1: seq<real>, y2: seq<real>, y3: seq<real>)
    returns (d0: real, d1: real, d2: real, d3: real)
    requires |x| == |y0| == |y1| == |y2| == |y3|
    ensures d0 == Dist(x, y0, |x|) && d1 == Dist(x, y1, |x|) && d2 == Dist(x, y2, |x|) && d3 == Dist(x, y3, |x|)
  {
    d0, d1, d2, d3 := 0.0, 0.0, 0.0, 0.0;
    var k: nat := 0;
    while k < |x|
      invariant k <= |x|
      invariant d0 == Dist(x, y0, k) && d1 == Dist(x, y1, k) && d2 == Dist(x, y2, k) && d3 == Dist(x, y3, k)
    {
      d0, d1 := d0 + Sq(x[k], y0[k]), d1 + Sq(x[k], y1[k]);
      d2, d3 := d2 + Sq(x[k], y2[k]), d3 + Sq(x[k], y3[k]);
      k := k + 1;
    }
  }

  method DistancesAny(dis: array<real>, x: seq<real>, y: seq<real>, d: nat, ny: nat)
    requires |x| == d && |y| == ny * d && ny <= dis.Length
    modifies dis
    ensures Written(dis[..], old(dis[..]), x, y, d, ny, ny)
  {
    ghost var was := dis[..];
    var i: nat := 0;
    while i + 3 < ny
      invariant i <= ny && Written(dis[..], was, x, y, d, ny, i)
    {
      var d0, d1, d2, d3 :=
        L2sqrBatch4(x, Row(y, d, ny, i), Row(y, d, ny, i + 1), Row(y, d, ny, i + 2), Row(y, d, ny, i + 3));
      StoreNext(dis, i, [d0, d1, d2, d3], was, x, y, d, ny);
      i := i + 4;
    }
    while i < ny
      invariant i <= ny && Written(dis[..], was, x, y, d, ny, i)
    {
      var d0 := L2sqr(x, Row(y, d, ny, i));
      StoreNext(dis, i, [d0], was, x, y, d, ny);
      i := i + 1;
    }
  }

  /** The dispatched kernel writes the distance of every row, whatever the dimension and the number of rows. */
  method Distances(dis: array<real>, x: seq<real>, y: seq<real>, d: nat, ny: nat)
    requires |x| == d && |y| == ny * d && ny <= dis.Length
    modifies dis
    ensures Written(dis[..], old(dis[..]), x, y, d, ny, ny)
  {
    if d == 2 {
      Distances2(dis, x, y, ny);
    } else if d == 4 {
      Distances4(dis, x, y, ny);
    } else {
      DistancesAny(dis, x, y, d, ny);
    }
  }

  // ---- the nearest row -------------------------------------------------------------------------------------

  /** The largest finite `float`, `(2^24 - 1) * 2^104`. */
  const FLT_MAX := 340282346638528859811704183484516925440.0

  /** The largest `float` has 24 bits set, the highest of weight 2^127. */
  lemma LargestFloat()
    ensures FLT_MAX == ((Pow2(24) - 1) * Pow2(104)) as real
  {
    assert Pow2(8) == 0x100 && Pow2(16) == 0x1_0000 && Pow2(24) == 0x100_0000;
    assert Pow2(32) == 0x1_0000_0000 && Pow2(40) == 0x100_0000_0000 && Pow2(48) == 0x1_0000_0000_0000;
    assert Pow2(56) == 0x100_0000_0000_0000 && Pow2(64) == 0x1_0000_0000_0000_0000;
    assert Pow2(72) == 0x100_0000_0000_0000_0000 && Pow2(80) == 0x1_0000_0000_0000_0000_0000;
    assert Pow2(88) == 0x100_0000_0000_0000_0000_0000 && Pow2(96) == 0x1_0000_0000_0000_0000_0000_0000;
    assert Pow2(104) == 0x100_0000_0000_0000_0000_0000_0000;
  }

  ghost predicate IsFirstMin(x: seq<real>, y: seq<real>, d: nat, ny: nat, r: nat)
    requires |x| == d && |y| == ny * d
  {
    && r < ny
    && (forall i :: 0 <= i < ny ==> RowDist(x, y, d, ny, r) <= RowDist(x, y, d, ny, i))
    && (forall i :: 0 <= i < r ==> RowDist(x, y, d, ny, r) < RowDist(x, y, d, ny, i))
  }

  predicate Below(start: Option<real>, v: real) {
    start.None? || v < start.value
  }

  /** The search for the first minimum below `start`, infinity if there is none; 0 if nothing is below it. */
  method ScanMin(dis: array<real>, ny: nat, start: Option<real>) returns (r: nat)
    requires ny <= dis.Length
    ensures (exists i :: 0 <= i < ny && Below(start, dis[i])) ==>
              r < ny && (forall i :: 0 <= i < ny ==> dis[r] <= dis[i]) && (forall i :: 0 <= i < r ==> dis[r] < dis[i])
    ensures (forall i :: 0 <= i < ny ==> !Below(start, dis[i])) ==> r == 0
  {
    r := 0;
    var min, i: nat := start, 0;
    while i < ny
      invariant i <= ny
      invariant min == start || (r < i && min == Some(dis[r]) && Below(start, dis[r]))
      invariant min == start ==> r == 0 && forall j :: 0 <= j < i ==> !Below(start, dis[j])
      invariant min != start ==>
                  (forall j :: 0 <= j < i ==> dis[r] <= dis[j]) && (forall j :: 0 <= j < r ==> dis[r] < dis[j])
    {
      if Below(min, dis[i]) {
        min, r := Some(dis[i]), i;
      }
      i := i + 1;
    }
  }

  method DistancesRef(dis: array<real>, x: seq<real>, y: seq<real>, d: nat, ny: nat)
    requires |x| == d && |y| == ny * d && ny <= dis.Length
    modifies dis
    ensures Written(dis[..], old(dis[..]), x, y, d, ny, ny)
  {
    ghost var was := dis[..];
    var i: nat := 0;
    while i < ny
      invariant i <= ny && Written(dis[..], was, x, y, d, ny, i)
    {
      var d0 := L2sqr(x, Row(y, d, ny, i));
      StoreNext(dis, i, [d0], was, x, y, d, ny);
      i := i + 1;
    }
  }

  /** The nearest row by the scalar kernel, which starts from infinity: the first minimum, 0 without rows. */
  method NearestRef(buffer: array<real>, x: seq<real>, y: seq<real>, d: nat, ny: nat) returns (r: nat)
    requires |x| == d && |y| == ny * d && ny <= buffer.Length
    modifies buffer
    ensures ny > 0 ==> IsFirstMin(x, y, d, ny, r)
    ensures ny == 0 ==> r == 0
  {
    DistancesRef(buffer, x, y, d, ny);
    r := ScanMin(buffer, ny, None);
    assert ny > 0 ==> Below(None, buffer[0]);
  }

  /** Some row is nearer than the largest float. */
  ghost predicate SomeFinite(x: seq<real>, y: seq<real>, d: nat, ny: nat)
    requires |x| == d && |y| == ny * d
  {
    exists i :: 0 <= i < ny && RowDist(x, y, d, ny, i) < FLT_MAX
  }

  /** The nearest row by the vector kernel, which starts from the largest float: the first minimum when some
      row is nearer than that, 0 otherwise. */
  method Nearest(buffer: array<real>, x: seq<real>, y: seq<real>, d: nat, ny: nat) returns (r: nat)
    requires |x| == d && |y| == ny * d && ny <= buffer.Length
    modifies buffer
    ensures SomeFinite(x, y, d, ny) ==> IsFirstMin(x, y, d, ny, r)
    ensures !SomeFinite(x, y, d, ny) ==> r == 0
  {
    Distances(buffer, x, y, d, ny);
    r := ScanMin(buffer, ny, Some(FLT_MAX));
  }

  /** The vector kernel finds the first minimum exactly when some row is nearer than the largest float or the
      first row is a nearest one. */
  lemma NearestIsFirstMinIff(x: seq<real>, y: seq<real>, d: nat, ny: nat, r: nat)
    requires |x| == d && |y| == ny * d && ny > 0
    requires if SomeFinite(x, y, d, ny) then IsFirstMin(x, y, d, ny, r) else r == 0
    ensures IsFirstMin(x, y, d, ny, r) <==> SomeFinite(x, y, d, ny) || IsFirstMin(x, y, d, ny, 0)
  {
  }

  /** Rows (2^64, 0) and (2^64 - 2^40, 2^52) seen from the origin: the second is nearer, yet neither is below
      the largest float, so the first is returned. In `float` the two distances are infinity and the largest
      float itself, with the same outcome. */
  lemma NearestMayMiss(x: seq<real>, y: seq<real>)
    requires x == [0.0, 0.0]
    requires y == [18446744073709551616.0, 0.0, 18446742974197923840.0, 4503599627370496.0]
    ensures !SomeFinite(x, y, 2, 2) && IsFirstMin(x, y, 2, 2, 1) && !IsFirstMin(x, y, 2, 2, 0)
  {
    RowDist2(x, y, 2, 0);
    RowDist2(x, y, 2, 1);
    assert RowDist(x, y, 2, 2, 0) == 340282366920938463463374607431768211456.0;
    assert RowDist(x, y, 2, 2, 1) == 340282346638528859811704183484516925440.0 + 1208925819614629174706176.0;
  }
}
