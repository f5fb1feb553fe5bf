/** The ordered MaxSim score of a query against an embedding list: rows are matched to positions in order. */
module OrderedMaxSims {
  import opened Bits
  import opened ResultHeaps

  /** Where row `i`, column `j` lies in the flat matrix of `nq` rows of `len`. */
  function Cell(nq: nat, len: nat, i: nat, j: nat): (r: nat)
    requires i < nq && j < len
    ensures r < nq * len
  {
    assert i * len + len == (i + 1) * len <= nq * len;
    i * len + j
  }

  /** The better of two scores. */
  function Pick(order: Order, a: real, b: real): real {
    if Better(order, b, a) then b else a
  }

  // ---- assignments -----------------------------------------------------------------------------

  /** Each of the first `|a|` rows is matched to a position, none before that of the row above. */
  ghost predicate IsAssignment(a: seq<nat>, len: nat) {
    && (forall i :: 0 <= i < |a| ==> a[i] < len)
    && (forall i :: 0 < i < |a| ==> a[i - 1] <= a[i])
  }

  ghost function Score(dists: seq<real>, nq: nat, len: nat, a: seq<nat>): real
    requires |dists| == nq * len && |a| <= nq && IsAssignment(a, len)
  {
    if a == [] then 0.0
    else
      var n := |a| - 1;
      Score(dists, nq, len, a[..n]) + dists[Cell(nq, len, n, a[n])]
  }

  /** `best` is the best score of the first `n` rows over positions up to `last`. */
  ghost predicate NoneBeats(order: Order, dists: seq<real>, nq: nat, len: nat, n: nat, last: nat, best: real)
    requires |dists| == nq * len && n <= nq && last < len
  {
    forall a :: |a| == n && IsAssignment(a, len) && (n > 0 ==> a[n - 1] <= last) ==>
      !Better(order, Score(dists, nq, len, a), best)
  }

  ghost predicate Attained(dists: seq<real>, nq: nat, len: nat, n: nat, last: nat, best: real)
    requires |dists| == nq * len && n <= nq && last < len
  {
    exists a :: |a| == n && IsAssignment(a, len) && (n > 0 ==> a[n - 1] <= last) && Score(dists, nq, len, a) == best
  }

  ghost predicate IsBest(order: Order, dists: seq<real>, nq: nat, len: nat, n: nat, last: nat, best: real)
    requires |dists| == nq * len && n <= nq && last < len
  {
    NoneBeats(order, dists, nq, len, n, last, best) && Attained(dists, nq, len, n, last, best)
  }

  // ---- one cell of the programme -----------------------------------------------------------------

  lemma BestOfNoRows(order: Order, dists: seq<real>, nq: nat, len: nat, last: nat)
    requires |dists| == nq * len && last < len
    ensures IsBest(order, dists, nq, len, 0, last, 0.0)
  {
    var a: seq<nat> := [];
    assert IsAssignment(a, len) && Score(dists, nq, len, a) == 0.0;
  }

  lemma ScoreOneMore(dists: seq<real>, nq: nat, len: nat, a: seq<nat>, last: nat, b: seq<nat>)
    requires |dists| == nq * len && |a| < nq && last < len && IsAssignment(a, len)
    requires (a != [] ==> a[|a| - 1] <= last) && b == a + [last]
    ensures IsAssignment(b, len)
    ensures Score(dists, nq, len, b) == Score(dists, nq, len, a) + dists[Cell(nq, len, |a|, last)]
  {
    assert b[..|a|] == a;
  }

  /** Row `n` is matched to `last` on top of a best score of the rows above it. */
  lemma ExtendAttained(dists: seq<real>, nq: nat, len: nat, n: nat, last: nat, above: real)
    requires |dists| == nq * len && n < nq && last < len && Attained(dists, nq, len, n, last, above)
    ensures Attained(dists, nq, len, n + 1, last, above + dists[Cell(nq, len, n, last)])
  {
    var a :| |a| == n && IsAssignment(a, len) && (n > 0 ==> a[n - 1] <= last) && Score(dists, nq, len, a) == above;
    ScoreOneMore(dists, nq, len, a, last, a + [last]);
  }

  lemma WidenAttained(dists: seq<real>, nq: nat, len: nat, n: nat, last: nat, best: real)
    requires |dists| == nq * len && n <= nq && last + 1 < len && Attained(dists, nq, len, n, last, best)
    ensures Attained(dists, nq, len, n, last + 1, best)
  {
    var a :| |a| == n && IsAssignment(a, len) && (n > 0 ==> a[n - 1] <= last) && Score(dists, nq, len, a) == best;
  }

  /** An assignment of one more row that ends at `last` scores no better than a best one above it plus the
      cell. */
  lemma EndingAt(order: Order, dists: seq<real>, nq: nat, len: nat, n: nat, last: nat, above: real, a: seq<nat>)
    requires |dists| == nq * len && n < nq && last < len && NoneBeats(order, dists, nq, len, n, last, above)
    requires |a| == n + 1 && IsAssignment(a, len) && a[n] == last
    ensures !Better(order, Score(dists, nq, len, a), above + dists[Cell(nq, len, n, last)])
  {
    assert IsAssignment(a[..n], len);
    assert n > 0 ==> a[..n][n - 1] == a[n - 1] <= a[n];
    assert !Better(order, Score(dists, nq, len, a[..n]), above);
  }

  /** The first column: the row can only be matched to position 0. */
  lemma FirstColumn(order: Order, dists: seq<real>, nq: nat, len: nat, n: nat, above: real)
    requires |dists| == nq * len && n < nq && 0 < len && IsBest(order, dists, nq, len, n, 0, above)
    ensures IsBest(order, dists, nq, len, n + 1, 0, above + dists[Cell(nq, len, n, 0)])
  {
    ExtendAttained(dists, nq, len, n, 0, above);
    forall a | |a| == n + 1 && IsAssignment(a, len) && a[n] <= 0
      ensures !Better(order, Score(dists, nq, len, a), above + dists[Cell(nq, len, n, 0)])
    {
      EndingAt(order, dists, nq, len, n, 0, above, a);
    }
  }

  /** Any other column: the row stays at or before the column to the left, or is matched to this one. */
  lemma NextColumn(order: Order, dists: seq<real>, nq: nat, len: nat, n: nat, j: nat, left: real, above: real)
    requires |dists| == nq * len && n < nq && 0 < j < len
    requires IsBest(order, dists, nq, len, n + 1, j - 1, left) && IsBest(order, dists, nq, len, n, j, above)
    ensures IsBest(order, dists, nq, len, n + 1, j, Pick(order, left, above + dists[Cell(nq, len, n, j)]))
  {
    ExtendAttained(dists, nq, len, n, j, above);
    WidenAttained(dists, nq, len, n + 1, j - 1, left);
    var best := Pick(order, left, above + dists[Cell(nq, len, n, j)]);
    forall a | |a| == n + 1 && IsAssignment(a, len) && a[n] <= j
      ensures !Better(order, Score(dists, nq, len, a), best)
    {
      if a[n] == j {
        EndingAt(order, dists, nq, len, n, j, above, a);
      } else {
        assert !Better(order, Score(dists, nq, len, a), left);
      }
    }
  }

  /** The row of best scores moves on to one more query row, in place. */
  method AddRow(dists: seq<real>, nq: nat, len: nat, order: Order, scores: array<real>, i: nat)
    requires |dists| == nq * len && i < nq && 0 < len == scores.Length
    requires forall j :: 0 <= j < len ==> IsBest(order, dists, nq, len, i, j, scores[j])
    modifies scores
    ensures forall j :: 0 <= j < len ==> IsBest(order, dists, nq, len, i + 1, j, scores[j])
  {
    FirstColumn(order, dists, nq, len, i, scores[0]);
    scores[0] := scores[0] + dists[Cell(nq, len, i, 0)];
    var j: nat := 1;
    while j < len
      invariant 1 <= j <= len
      invariant forall t :: 0 <= t < j ==> IsBest(order, dists, nq, len, i + 1, t, scores[t])
      invariant forall t :: j <= t < len ==> IsBest(order, dists, nq, len, i, t, scores[t])
    {
      NextColumn(order, dists, nq, len, i, j, scores[j - 1], scores[j]);
      scores[j] := Pick(order, scores[j - 1], scores[j] + dists[Cell(nq, len, i, j)]);
      j := j + 1;
    }
  }

  // ---- the matrix, row by row ---------------------------------------------------------------------

  /** The row stands in `dists` from `at` on. */
  ghost predicate StandsAt(dists: seq<real>, row: seq<real>, len: nat, at: nat) {
    |row| == len && forall j :: 0 <= j < len ==> at + j < |dists| && dists[at + j] == row[j]
  }

  /** Entry `j` of row `i` stands at `i * len + j`. */
  ghost predicate RowAt(dists: seq<real>, rows: seq<seq<real>>, len: nat, i: nat)
    requires i < |rows|
  {
    StandsAt(dists, rows[i], len, i * len)
  }

  /** `dists` holds these rows one after the other. */
  ghost predicate AreRows(dists: seq<real>, rows: seq<seq<real>>, len: nat) {
    forall i :: 0 <= i < |rows| ==> RowAt(dists, rows, len, i)
  }

  /** Every flat matrix holds rows. */
  lemma {:induction false} HasRows(dists: seq<real>, nq: nat, len: nat, n: nat) returns (rows: seq<seq<real>>)
    requires |dists| == nq * len && n <= nq
    ensures |rows| == n && AreRows(dists, rows, len)
  {
    if n == 0 {
      rows := [];
    } else {
      var front := HasRows(dists, nq, len, n - 1);
      RowFits(nq, len, n - 1);
      var at := (n - 1) * len;
      var last := dists[at..at + len];
      assert StandsAt(dists, last, len, at);
      rows := front + [last];
      forall k: nat | k < n ensures RowAt(dists, rows, len, k) {
        if k < n - 1 {
          assert RowAt(dists, front, len, k);
        }
      }
    }
  }

  lemma RowFits(nq: nat, len: nat, i: nat)
    requires i < nq
    ensures i * len + len <= nq * len
  {
    var more := nq - i - 1;
    assert nq * len == i * len + len + more * len;
  }

  /** The sum of what each row has at the position it is matched to. */
  ghost function RowScore(rows: seq<seq<real>>, len: nat, a: seq<nat>): real
    requires |a| <= |rows| && IsAssignment(a, len) && forall i :: 0 <= i < |rows| ==> |rows[i]| == len
  {
    if a == [] then 0.0
    else
      var n := |a| - 1;
      RowScore(rows, len, a[..n]) + rows[n][a[n]]
  }

  lemma {:induction false} ScoreByRows(dists: seq<real>, rows: seq<seq<real>>, nq: nat, len: nat, a: seq<nat>)
    requires |rows| == nq && |dists| == nq * len && AreRows(dists, rows, len) && |a| <= nq && IsAssignment(a, len)
    ensures forall i :: 0 <= i < |rows| ==> |rows[i]| == len
    ensures Score(dists, nq, len, a) == RowScore(rows, len, a)
  {
    forall i | 0 <= i < |rows| ensures |rows[i]| == len {
      assert RowAt(dists, rows, len, i);
    }
    if a != [] {
      var n := |a| - 1;
      ScoreByRows(dists, rows, nq, len, a[..n]);
      assert RowAt(dists, rows, len, n);
    }
  }

  ghost predicate NoRowsBeat(order: Order, rows: seq<seq<real>>, len: nat, best: real)
    requires forall i :: 0 <= i < |rows| ==> |rows[i]| == len
  {
    forall a :: |a| == |rows| && IsAssignment(a, len) ==> !Better(order, RowScore(rows, len, a), best)
  }

  /** No assignment of the rows to positions in order beats `best`, and some assignment has it. */
  ghost predicate IsBestOfRows(order: Order, rows: seq<seq<real>>, len: nat, best: real) {
    && (forall i :: 0 <= i < |rows| ==> |rows[i]| == len) && NoRowsBeat(order, rows, len, best)
    && exists a :: |a| == |rows| && IsAssignment(a, len) && RowScore(rows, len, a) == best
  }

  lemma BestByRows(order: Order, dists: seq<real>, rows: seq<seq<real>>, nq: nat, len: nat, best: real)
    requires |rows| == nq && |dists| == nq * len && len > 0 && AreRows(dists, rows, len)
    requires IsBest(order, dists, nq, len, nq, len - 1, best)
    ensures IsBestOfRows(order, rows, len, best)
  {
    var a :| |a| == nq && IsAssignment(a, len) && (nq > 0 ==> a[nq - 1] <= len - 1) && Score(dists, nq, len, a) == best;
    ScoreByRows(dists, rows, nq, len, a);
    forall a | |a| == nq && IsAssignment(a, len) ensures !Better(order, RowScore(rows, len, a), best) {
      ScoreByRows(dists, rows, nq, len, a);
      assert nq > 0 ==> a[nq - 1] <= len - 1;
    }
  }

  /** No assignment of query rows to list positions in order beats the score, and some assignment has it;
      there is no score without rows or positions. */
  method OrderedSumMaxSim(dists: seq<real>, nq: nat, len: nat, order: Order) returns (r: Option<real>)
    requires |dists| == nq * len
    ensures r.None? <==> nq == 0 || len == 0
    ensures r.Some? ==> IsBest(order, dists, nq, len, nq, len - 1, r.value)
    ensures r.Some? ==> forall rows: seq<seq<real>> :: |rows| == nq && AreRows(dists, rows, len) ==>
                          IsBestOfRows(order, rows, len, r.value)
  {
    if nq == 0 || len == 0 {
      return None;
    }
    var scores := new real[len](_ => 0.0);
    forall j | 0 <= j < len ensures IsBest(order, dists, nq, len, 0, j, scores[j]) {
      BestOfNoRows(order, dists, nq, len, j);
    }
    var i: nat := 0;
    while i < nq
      invariant i <= nq
      invariant forall j :: 0 <= j < len ==> IsBest(order, dists, nq, len, i, j, scores[j])
    {
      AddRow(dists, nq, len, order, scores, i);
      i := i + 1;
    }
    r := Some(scores[len - 1]);
    forall rows: seq<seq<real>> | |rows| == nq && AreRows(dists, rows, len)
      ensures IsBestOfRows(order, rows, len, r.value)
    {
      BestByRows(order, dists, rows, nq, len, r.value);
    }
  }
}
