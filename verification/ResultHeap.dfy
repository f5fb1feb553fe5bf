/** The top-k result heap: the worst kept entry sits on top and doubles as an entry threshold. */
module ResultHeaps {
  import opened Bits

  datatype Entry = Entry(dis: real, id: int)

  /** `std::less` keeps the smallest distances, `std::greater` the largest scores. */
  datatype Order = KeepSmallest | KeepLargest

  /** `Compare()`: `a` is strictly better than `b`. */
  predicate Better(order: Order, a: real, b: real) {
    if order.KeepSmallest? then a < b else a > b
  }

  // ---- heap order --------------------------------------------------------------------

  /** Entry `i` is not worse than its parent. */
  ghost predicate ParentOk(order: Order, q: seq<Entry>, i: nat)
    requires 0 < i < |q|
  {
    !Better(order, q[(i - 1) / 2].dis, q[i].dis)
  }

  ghost predicate IsHeap(order: Order, q: seq<Entry>, n: nat)
    requires n <= |q|
  {
    forall i :: 0 < i < n ==> ParentOk(order, q, i)
  }

  /** A heap but for entry `hole`, which may be better than its children; its children are not worse
      than its parent. */
  ghost predicate HeapBelow(order: Order, q: seq<Entry>, n: nat, hole: nat)
    requires n <= |q|
  {
    && (forall i :: 0 < i < n && (i - 1) / 2 != hole ==> ParentOk(order, q, i))
    && (0 < hole < n ==> forall i :: 0 < i < n && (i - 1) / 2 == hole ==>
          !Better(order, q[(hole - 1) / 2].dis, q[i].dis))
  }

  /** A heap but for entry `hole`, which may be worse than its parent. */
  ghost predicate HeapAbove(order: Order, q: seq<Entry>, hole: nat) {
    && (forall i :: 0 < i < |q| && i != hole ==> ParentOk(order, q, i))
    && (0 < hole < |q| ==> forall i :: 0 < i < |q| && (i - 1) / 2 == hole ==>
          !Better(order, q[(hole - 1) / 2].dis, q[i].dis))
  }

  /** No entry of a heap is worse than its top. */
  lemma {:induction false} TopIsWorst(order: Order, q: seq<Entry>, n: nat, i: nat)
    requires i < n <= |q| && IsHeap(order, q, n)
    ensures !Better(order, q[0].dis, q[i].dis)
    decreases i
  {
    if i > 0 {
      TopIsWorst(order, q, n, (i - 1) / 2);
      assert ParentOk(order, q, i);
    }
  }

  function Swapped(q: seq<Entry>, i: nat, j: nat): (r: seq<Entry>)
    requires i < |q| && j < |q|
    ensures |r| == |q| && multiset(r) == multiset(q)
  {
    q[i := q[j]][j := q[i]]
  }

  lemma SwappedTail(q: seq<Entry>, i: nat, j: nat, n: nat)
    requires i < n <= |q| && j < n
    ensures Swapped(q, i, j)[n..] == q[n..]
  {
  }

  /** One level of the sift-down keeps the order everywhere but at the place the entry moved to. */
  lemma SwapDown(order: Order, q: seq<Entry>, n: nat, hole: nat, next: nat)
    requires n <= |q| && HeapBelow(order, q, n, hole) && 0 < next < n && (next - 1) / 2 == hole
    requires Better(order, q[hole].dis, q[next].dis)
    requires forall i :: 0 < i < n && (i - 1) / 2 == hole ==> !Better(order, q[next].dis, q[i].dis)
    ensures HeapBelow(order, Swapped(q, hole, next), n, next)
  {
    var r := Swapped(q, hole, next);
    forall i | 0 < i < n && (i - 1) / 2 != next ensures ParentOk(order, r, i) {
      if (i - 1) / 2 != hole { assert ParentOk(order, q, i); }
    }
    forall i | 0 < i < n && (i - 1) / 2 == next ensures !Better(order, r[(next - 1) / 2].dis, r[i].dis) {
      assert ParentOk(order, q, i);
    }
  }

  /** The worst of an entry and its two children, the entry itself on a tie. */
  function WorstOfThree(order: Order, q: seq<Entry>, idx: nat): (next: nat)
    requires 2 * (idx + 1) < |q|
    ensures next == idx || next == 2 * idx + 1 || next == 2 * idx + 2
    ensures next != idx ==> Better(order, q[idx].dis, q[next].dis)
    ensures forall i :: 0 < i < |q| && (i - 1) / 2 == idx ==> !Better(order, q[next].dis, q[i].dis)
  {
    var right := 2 * (idx + 1);
    var left := right - 1;
    var next := if Better(order, q[idx].dis, q[left].dis) then left else idx;
    if Better(order, q[next].dis, q[right].dis) then right else next
  }

  /** The custom sift-down: the top of the first `n` entries sinks to its place. */
  method SiftDown(order: Order, q: seq<Entry>, n: nat) returns (r: seq<Entry>)
    requires n <= |q| && HeapBelow(order, q, n, 0)
    ensures |r| == |q| && IsHeap(order, r, n) && r[n..] == q[n..]
    ensures multiset(r) == multiset(q)
  {
    r := q;
    var idx := 0;
    while 2 * (idx + 1) < n
      invariant |r| == |q| && HeapBelow(order, r, n, idx) && r[n..] == q[n..]
      invariant multiset(r) == multiset(q)
      decreases n - idx
    {
      var next := WorstOfThree(order, r, idx);
      if next == idx {
        SettledAt(order, r, n, idx);
        return;
      }
      SwapDown(order, r, n, idx, next);
      SwappedTail(r, idx, next, n);
      r := Swapped(r, idx, next);
      idx := next;
    }
    var left := 2 * idx + 1;
    if left < n && Better(order, r[idx].dis, r[left].dis) {
      SwapDown(order, r, n, idx, left);
      SwappedTail(r, idx, left, n);
      r := Swapped(r, idx, left);
      idx := left;
    }
    SettledAt(order, r, n, idx);
  }

  /** The hole is filled once its entry is not better than any child. */
  lemma SettledAt(order: Order, q: seq<Entry>, n: nat, hole: nat)
    requires n <= |q| && HeapBelow(order, q, n, hole)
    requires forall i :: 0 < i < n && (i - 1) / 2 == hole ==> !Better(order, q[hole].dis, q[i].dis)
    ensures IsHeap(order, q, n)
  {
  }

  lemma SameBelow(q: seq<Entry>, r: seq<Entry>, n: nat)
    requires n <= |q| == |r| && multiset(q) == multiset(r) && q[n..] == r[n..]
    ensures multiset(r[..n]) == multiset(q[..n])
  {
    assert q == q[..n] + q[n..] && r == r[..n] + r[n..];
    assert multiset(q) == multiset(q[..n]) + multiset(q[n..]);
    assert multiset(r) == multiset(r[..n]) + multiset(r[n..]);
    assert multiset(r[..n]) == multiset(r) - multiset(r[n..]);
  }

  /** `std::push_heap`: the last entry rises to its place. */
  method PushHeap(order: Order, q: seq<Entry>) returns (r: seq<Entry>)
    requires |q| > 0 && IsHeap(order, q, |q| - 1)
    ensures |r| == |q| && IsHeap(order, r, |r|) && multiset(r) == multiset(q)
  {
    r := q;
    var hole: nat := |q| - 1;
    while hole > 0 && Better(order, r[(hole - 1) / 2].dis, r[hole].dis)
      invariant hole < |q| == |r| && HeapAbove(order, r, hole) && multiset(r) == multiset(q)
    {
      var parent := (hole - 1) / 2;
      SwapUp(order, r, hole);
      r := Swapped(r, hole, parent);
      hole := parent;
    }
  }

  lemma SwapUp(order: Order, q: seq<Entry>, hole: nat)
    requires 0 < hole < |q| && HeapAbove(order, q, hole)
    requires Better(order, q[(hole - 1) / 2].dis, q[hole].dis)
    ensures HeapAbove(order, Swapped(q, hole, (hole - 1) / 2), (hole - 1) / 2)
  {
    var parent := (hole - 1) / 2;
    var r := Swapped(q, hole, parent);
    forall i | 0 < i < |r| && i != parent ensures ParentOk(order, r, i) {
      if i != hole { assert ParentOk(order, q, i); }
    }
    if parent > 0 {
      assert ParentOk(order, q, parent);
      forall i | 0 < i < |r| && (i - 1) / 2 == parent ensures !Better(order, r[(parent - 1) / 2].dis, r[i].dis) {
        if i != hole { assert ParentOk(order, q, i); }
      }
    }
  }

  /** `std::pop_heap` on the first `n` entries: the top moves to their end. */
  method PopHeap(order: Order, q: seq<Entry>, n: nat) returns (r: seq<Entry>)
    requires 0 < n <= |q| && IsHeap(order, q, n)
    ensures |r| == |q| && IsHeap(order, r, n - 1) && r[n - 1] == q[0] && r[n..] == q[n..]
    ensures multiset(r) == multiset(q) && multiset(r[..n]) == multiset(q[..n])
  {
    var swapped := Swapped(q, 0, n - 1);
    SameBelow(q, swapped, n);
    forall i | 0 < i < n - 1 && (i - 1) / 2 != 0 ensures ParentOk(order, swapped, i) {
      assert ParentOk(order, q, i);
    }
    r := SiftDown(order, swapped, n - 1);
    assert r[n - 1] == r[n - 1..][0] && swapped[n - 1] == swapped[n - 1..][0];
    assert r[n..] == r[n - 1..][1..] && swapped[n..] == swapped[n - 1..][1..];
    SameBelow(q, r, n);
  }

  // ---- what the heap keeps -------------------------------------------------------------

  /** `x` is among the worst of `m`. */
  ghost predicate IsWorst(order: Order, m: multiset<Entry>, x: Entry) {
    x in m && forall y :: y in m ==> !Better(order, x.dis, y.dis)
  }

  /** `x` may be kept while `y` is left out. */
  ghost predicate MayPrefer(order: Order, x: Entry, y: Entry) {
    !Better(order, y.dis, x.dis)
  }

  /** Nothing in `left` is better than anything in `kept`. */
  ghost predicate NoneBetter(order: Order, kept: multiset<Entry>, left: multiset<Entry>) {
    forall x, y {:trigger MayPrefer(order, x, y)} :: x in kept && y in left ==> MayPrefer(order, x, y)
  }

  /** `kept` are `k` entries preferred to those in `left`, or nothing had to be left out. */
  ghost predicate TopSplit(order: Order, kept: multiset<Entry>, left: multiset<Entry>, k: nat) {
    && |kept| <= k && (left != multiset{} ==> |kept| == k)
    && NoneBetter(order, kept, left)
  }

  /** `kept` are `k` best entries of `all`, or all of them when there are fewer. */
  ghost predicate IsTopK(order: Order, kept: multiset<Entry>, all: multiset<Entry>, k: nat) {
    kept <= all && TopSplit(order, kept, all - kept, k)
  }

  /** A push of `e` may turn the kept entries from `kept` to `next`: below `k` entries it is added,
      otherwise it takes the place of a worst one if it is better, and is turned away if not. */
  ghost predicate Pushed(order: Order, k: nat, kept: multiset<Entry>, e: Entry, next: multiset<Entry>) {
    if |kept| < k then next == kept + multiset{e}
    else
      exists worst :: IsWorst(order, kept, worst) &&
        next == if Better(order, e.dis, worst.dis) then kept - multiset{worst} + multiset{e} else kept
  }

  lemma SplitAfterSwap(order: Order, kept: multiset<Entry>, left: multiset<Entry>, k: nat, worst: Entry, e: Entry)
    requires TopSplit(order, kept, left, k) && |kept| == k
    requires IsWorst(order, kept, worst) && Better(order, e.dis, worst.dis)
    ensures TopSplit(order, kept - multiset{worst} + multiset{e}, left + multiset{worst}, k)
  {
    var next := kept - multiset{worst} + multiset{e};
    assert |next| == |kept|;
    forall x, y | x in next && y in left + multiset{worst} ensures MayPrefer(order, x, y) {
      assert y in left ==> MayPrefer(order, worst, y);
      assert x in kept || x == e;
    }
  }

  lemma SplitAfterTurnAway(order: Order, kept: multiset<Entry>, left: multiset<Entry>, k: nat, worst: Entry, e: Entry)
    requires TopSplit(order, kept, left, k) && |kept| == k
    requires IsWorst(order, kept, worst) && !Better(order, e.dis, worst.dis)
    ensures TopSplit(order, kept, left + multiset{e}, k)
  {
    forall x, y | x in kept && y in left + multiset{e} ensures MayPrefer(order, x, y) {
      assert y in left ==> MayPrefer(order, x, y);
    }
  }

  lemma LeftAfterSwap(all: multiset<Entry>, kept: multiset<Entry>, worst: Entry, e: Entry)
    requires kept <= all && worst in kept
    ensures kept - multiset{worst} + multiset{e} <= all + multiset{e}
    ensures all + multiset{e} - (kept - multiset{worst} + multiset{e}) == all - kept + multiset{worst}
  {
  }

  lemma LeftAfterTurnAway(all: multiset<Entry>, kept: multiset<Entry>, e: Entry)
    requires kept <= all
    ensures kept <= all + multiset{e} && all + multiset{e} - kept == all - kept + multiset{e}
  {
  }

  lemma PushBelowK(order: Order, k: nat, kept: multiset<Entry>, all: multiset<Entry>, e: Entry)
    requires IsTopK(order, kept, all, k) && |kept| < k
    ensures IsTopK(order, kept + multiset{e}, all + multiset{e}, k)
  {
    assert all == kept + (all - kept) == kept;
    assert all + multiset{e} - (kept + multiset{e}) == multiset{};
  }

  /** A push keeps the kept entries the best of everything pushed. */
  lemma PushKeepsTopK(order: Order, k: nat, kept: multiset<Entry>, all: multiset<Entry>, e: Entry,
                      next: multiset<Entry>)
    requires k > 0 && IsTopK(order, kept, all, k) && Pushed(order, k, kept, e, next)
    ensures IsTopK(order, next, all + multiset{e}, k)
  {
    if |kept| < k {
      PushBelowK(order, k, kept, all, e);
    } else {
      var worst :| IsWorst(order, kept, worst) &&
        next == if Better(order, e.dis, worst.dis) then kept - multiset{worst} + multiset{e} else kept;
      if Better(order, e.dis, worst.dis) {
        SplitAfterSwap(order, kept, all - kept, k, worst, e);
        LeftAfterSwap(all, kept, worst, e);
      } else {
        SplitAfterTurnAway(order, kept, all - kept, k, worst, e);
        LeftAfterTurnAway(all, kept, e);
      }
    }
  }

  // ---- the best distances in order -------------------------------------------------------

  ghost predicate BestFirst(order: Order, s: seq<Entry>) {
    forall i, j :: 0 <= i <= j < |s| ==> !Better(order, s[j].dis, s[i].dis)
  }

  function Without(s: seq<Entry>, j: nat): (r: seq<Entry>)
    requires j < |s|
    ensures |r| == |s| - 1 && multiset(r) == multiset(s) - multiset{s[j]}
  {
    assert s == s[..j] + [s[j]] + s[j + 1..];
    s[..j] + s[j + 1..]
  }

  /** Removing an entry that ties with the last changes no distance before the end. */
  lemma WithoutTie(order: Order, s: seq<Entry>, j: nat)
    requires j < |s| && BestFirst(order, s) && s[j].dis == s[|s| - 1].dis
    ensures BestFirst(order, Without(s, j))
    ensures forall i :: 0 <= i < |s| - 1 ==> Without(s, j)[i].dis == s[i].dis
  {
    forall i | j <= i < |s| ensures s[i].dis == s[|s| - 1].dis {
      assert !Better(order, s[i].dis, s[j].dis) && !Better(order, s[|s| - 1].dis, s[i].dis);
    }
  }

  /** The kept entries, best first, carry exactly the first distances of everything sorted best
      first: the top k is unique up to ties. */
  lemma {:induction false} TopKDistances(order: Order, r: seq<Entry>, s: seq<Entry>, k: nat)
    requires BestFirst(order, r) && BestFirst(order, s) && IsTopK(order, multiset(r), multiset(s), k)
    ensures |r| == (if |s| < k then |s| else k)
    ensures forall i :: 0 <= i < |r| ==> r[i].dis == s[i].dis
    decreases |s|
  {
    SizesMatch(order, r, s, k);
    if |s| > 0 {
      if |r| == |s| {
        var j := AllButLast(order, r, s);
        WithoutTie(order, s, j);
        TopKDistances(order, r[..|r| - 1], Without(s, j), |r| - 1);
        SameLast(order, r, s, j);
      } else {
        var j := LeftOutLast(order, r, s, k);
        WithoutTie(order, s, j);
        TopKDistances(order, r, Without(s, j), k);
      }
    }
  }

  lemma SizesMatch(order: Order, r: seq<Entry>, s: seq<Entry>, k: nat)
    requires IsTopK(order, multiset(r), multiset(s), k)
    ensures |r| == (if |s| < k then |s| else k)
  {
    var left := multiset(s) - multiset(r);
    assert multiset(s) == multiset(r) + left;
    assert |multiset(s)| == |s| && |multiset(r)| == |r|;
  }

  lemma WholeIsTop(order: Order, m: multiset<Entry>, k: nat)
    requires |m| == k
    ensures IsTopK(order, m, m, k)
  {
    assert m - m == multiset{};
  }

  lemma SubsetSize(a: multiset<Entry>, b: multiset<Entry>)
    requires a <= b
    ensures |a| <= |b|
  {
    var left := b - a;
    assert b == a + left;
  }

  lemma SameSize(a: multiset<Entry>, b: multiset<Entry>)
    requires a <= b && |a| == |b|
    ensures a == b
  {
    var left := b - a;
    assert b == a + left;
  }

  /** Two orderings of the same entries end in the same distance. */
  lemma SameLast(order: Order, r: seq<Entry>, s: seq<Entry>, j: nat)
    requires |r| == |s| > 0 && BestFirst(order, r) && BestFirst(order, s) && multiset(r) == multiset(s)
    requires j < |s| && s[j] == r[|r| - 1]
    ensures s[j].dis == s[|s| - 1].dis
  {
    assert s[|s| - 1] in multiset(r);
    var i :| 0 <= i < |r| && r[i] == s[|s| - 1];
    assert !Better(order, r[|r| - 1].dis, r[i].dis) && !Better(order, s[|s| - 1].dis, s[j].dis);
  }

  lemma SameRest(r: seq<Entry>, s: seq<Entry>, j: nat)
    requires |r| > 0 && multiset(r) == multiset(s) && j < |s| && s[j] == r[|r| - 1]
    ensures multiset(r[..|r| - 1]) == multiset(Without(s, j))
  {
    assert r == r[..|r| - 1] + [r[|r| - 1]];
  }

  lemma AllButLast(order: Order, r: seq<Entry>, s: seq<Entry>) returns (j: nat)
    requires |r| == |s| > 0 && BestFirst(order, r) && BestFirst(order, s) && multiset(r) <= multiset(s)
    ensures multiset(r) == multiset(s) && j < |s| && s[j] == r[|r| - 1] && s[j].dis == s[|s| - 1].dis
    ensures IsTopK(order, multiset(r[..|r| - 1]), multiset(Without(s, j)), |r| - 1)
  {
    SameSize(multiset(r), multiset(s));
    var n := |r| - 1;
    assert r[n] in multiset(s);
    j :| 0 <= j < |s| && s[j] == r[n];
    SameLast(order, r, s, j);
    SameRest(r, s, j);
    WholeIsTop(order, multiset(r[..n]), n);
  }

  /** When entries were left out, one of them ties with the worst of all. */
  lemma LeftOutLast(order: Order, r: seq<Entry>, s: seq<Entry>, k: nat) returns (j: nat)
    requires |r| < |s| && BestFirst(order, s) && IsTopK(order, multiset(r), multiset(s), k)
    ensures j < |s| && s[j].dis == s[|s| - 1].dis && IsTopK(order, multiset(r), multiset(Without(s, j)), k)
  {
    j := TieLeftOut(order, multiset(r), s);
    DropLeftOut(order, multiset(r), multiset(s), k, s[j]);
  }

  lemma TieLeftOut(order: Order, kept: multiset<Entry>, s: seq<Entry>) returns (j: nat)
    requires kept <= multiset(s) && |kept| < |s| && BestFirst(order, s)
    requires NoneBetter(order, kept, multiset(s) - kept)
    ensures j < |s| && s[j] in multiset(s) - kept && s[j].dis == s[|s| - 1].dis
  {
    var last, left := s[|s| - 1], multiset(s) - kept;
    assert last in multiset(s);
    if last in left {
      j := |s| - 1;
    } else {
      assert multiset(s) == kept + left && |multiset(s)| == |s|;
      var y :| y in left;
      assert y in multiset(s) && last in kept;
      j :| 0 <= j < |s| && s[j] == y;
      assert MayPrefer(order, last, y);
      assert !Better(order, last.dis, s[j].dis);
    }
  }

  lemma DropLeftOut(order: Order, kept: multiset<Entry>, all: multiset<Entry>, k: nat, y: Entry)
    requires IsTopK(order, kept, all, k) && y in all - kept
    ensures IsTopK(order, kept, all - multiset{y}, k)
  {
    assert all - multiset{y} - kept == all - kept - multiset{y};
  }

  // ---- sorting and the heap itself --------------------------------------------------------

  /** Every entry of the heap part may come before every entry already in place. */
  ghost predicate Settled(order: Order, q: seq<Entry>, n: nat)
    requires n <= |q|
  {
    forall i, j {:trigger MayPrefer(order, q[i], q[j])} :: 0 <= i < n <= j < |q| ==> MayPrefer(order, q[i], q[j])
  }

  /** One `pop_heap` puts the next entry in place. */
  lemma SettleTop(order: Order, q: seq<Entry>, r: seq<Entry>, n: nat)
    requires 0 < n <= |q| == |r| && IsHeap(order, q, n) && Settled(order, q, n)
    requires r[n - 1] == q[0] && r[n..] == q[n..] && multiset(r[..n]) == multiset(q[..n])
    ensures Settled(order, r, n - 1)
  {
    forall i, j | 0 <= i < n - 1 < j + 1 && n - 1 <= j < |r| ensures MayPrefer(order, r[i], r[j]) {
      assert r[..n][i] in multiset(q[..n]);
      var k :| 0 <= k < n && q[..n][k] == r[..n][i];
      TopIsWorst(order, q, n, k);
      if j >= n {
        assert r[j] == r[n..][j - n] == q[j];
        assert MayPrefer(order, q[k], q[j]);
      }
    }
  }

  lemma SortedAfterPop(order: Order, q: seq<Entry>, r: seq<Entry>, n: nat)
    requires 0 < n <= |q| == |r| && Settled(order, q, n) && BestFirst(order, q[n..])
    requires r[n - 1] == q[0] && r[n..] == q[n..]
    ensures BestFirst(order, r[n - 1..])
  {
    var t := r[n - 1..];
    forall i, j | 0 <= i <= j < |t| ensures !Better(order, t[j].dis, t[i].dis) {
      if i == 0 < j {
        assert t[j] == r[n..][j - 1] == q[n + j - 1];
        assert MayPrefer(order, q[0], q[n + j - 1]);
      } else if i > 0 {
        assert t[j] == q[n..][j - 1] && t[i] == q[n..][i - 1];
      }
    }
  }

  /** `std::sort_heap`: the entries of a heap, best first. */
  method SortHeap(order: Order, q: seq<Entry>) returns (r: seq<Entry>)
    requires IsHeap(order, q, |q|)
    ensures BestFirst(order, r) && multiset(r) == multiset(q)
  {
    r := q;
    var n: nat := |q|;
    while n > 0
      invariant n <= |r| == |q| && IsHeap(order, r, n) && Settled(order, r, n)
      invariant BestFirst(order, r[n..]) && multiset(r) == multiset(q)
    {
      var next := PopHeap(order, r, n);
      SettleTop(order, r, next, n);
      SortedAfterPop(order, r, next, n);
      r, n := next, n - 1;
    }
    assert r == r[0..];
  }

  /** The top is a worst entry. */
  lemma TopWorst(order: Order, q: seq<Entry>)
    requires |q| > 0 && IsHeap(order, q, |q|)
    ensures IsWorst(order, multiset(q), q[0])
  {
    forall y | y in multiset(q) ensures !Better(order, q[0].dis, y.dis) {
      var i :| 0 <= i < |q| && q[i] == y;
      TopIsWorst(order, q, |q|, i);
    }
  }

  class ResultHeap {
    const order: Order
    const k: nat
    var q: seq<Entry>
    var threshold: real
    var thresholdValid: bool

    /** Everything pushed, less what `Pop` and `Clear` took away. */
    ghost var seen: multiset<Entry>

    /** The worst kept entry is on top and is the threshold once the heap is full. */
    ghost predicate Ordered()
      reads this
    {
      && k > 0 && IsHeap(order, q, |q|) && |q| <= k
      && thresholdValid == (|q| == k)
      && (thresholdValid ==> threshold == q[0].dis)
    }

    /** The kept entries are `k` best of everything seen. */
    ghost predicate Valid()
      reads this
    {
      Ordered() && IsTopK(order, multiset(q), seen, k)
    }

    constructor (order: Order, k: nat)
      requires k > 0
      ensures Valid() && this.order == order && this.k == k && q == [] && seen == multiset{}
    {
      this.order, this.k, q, threshold, thresholdValid, seen := order, k, [], 0.0, false, multiset{};
      new;
      WholeIsTop(order, multiset{}, 0);
    }

    /** An entry enters exactly when the heap has room or the entry beats a worst one kept. */
    method WouldEnter(val: real) returns (r: bool)
      requires Ordered()
      ensures r <==> |q| < k || Better(order, val, q[0].dis)
    {
      r := !thresholdValid || Better(order, val, threshold);
    }

    lemma TurnedAway(e: Entry)
      requires Ordered() && |q| == k && !Better(order, e.dis, q[0].dis)
      ensures Pushed(order, k, multiset(q), e, multiset(q))
    {
      TopWorst(order, q);
    }

    method Push(val: real, id: int) returns (entered: bool)
      requires Valid()
      modifies this
      ensures Valid() && seen == old(seen) + multiset{Entry(val, id)}
      ensures Pushed(order, k, old(multiset(q)), Entry(val, id), multiset(q))
      ensures entered <==> |old(q)| < k || Better(order, val, old(q[0].dis))
    {
      var e := Entry(val, id);
      entered := WouldEnter(val);
      if entered {
        Enter(e);
      } else {
        TurnedAway(e);
      }
      PushKeepsTopK(order, k, old(multiset(q)), old(seen), e, multiset(q));
      seen := seen + multiset{e};
    }

    /** The entry is known to enter: it is added, or takes the place of the top. */
    method Enter(e: Entry)
      requires Ordered() && (|q| < k || Better(order, e.dis, q[0].dis))
      modifies `q, `threshold, `thresholdValid
      ensures Ordered() && Pushed(order, k, old(multiset(q)), e, multiset(q))
    {
      if |q| < k {
        q := AddEntry(order, q, e);
        if |q| == k {
          threshold, thresholdValid := q[0].dis, true;
        }
      } else {
        TopWorst(order, q);
        q := ReplaceTop(order, q, e);
        threshold := q[0].dis;
      }
    }

    /** Takes away a worst entry; what is left is then all the heap accounts for. */
    method Pop() returns (r: Option<Entry>)
      requires Valid()
      modifies this
      ensures Valid() && (r.None? <==> old(q) == [])
      ensures r.None? ==> q == old(q) && seen == old(seen)
      ensures r.Some? ==> IsWorst(order, old(multiset(q)), r.value) &&
                          multiset(q) == old(multiset(q)) - multiset{r.value} && seen == multiset(q)
    {
      if |q| == 0 {
        return None;
      }
      TopWorst(order, q);
      var worst, rest := RemoveTop(order, q);
      KeptAll(order, rest, k);
      r, q, thresholdValid, seen := Some(worst), rest, false, multiset(rest);
    }

    method Clear()
      requires Valid()
      modifies this
      ensures Valid() && q == [] && seen == multiset{}
    {
      q, thresholdValid, seen := [], false, multiset{};
      KeptAll(order, q, k);
    }

    /** Sorts the kept entries best first; the heap order is given up. */
    method Finalize()
      requires Valid()
      modifies `q
      ensures BestFirst(order, q) && multiset(q) == old(multiset(q)) && IsTopK(order, multiset(q), seen, k)
    {
      q := SortHeap(order, q);
    }
  }

  method AddEntry(order: Order, q: seq<Entry>, e: Entry) returns (r: seq<Entry>)
    requires IsHeap(order, q, |q|)
    ensures |r| == |q| + 1 && IsHeap(order, r, |r|) && multiset(r) == multiset(q) + multiset{e}
  {
    var all := q + [e];
    forall i | 0 < i < |q| ensures ParentOk(order, all, i) {
      assert ParentOk(order, q, i);
    }
    r := PushHeap(order, all);
  }

  method RemoveTop(order: Order, q: seq<Entry>) returns (top: Entry, r: seq<Entry>)
    requires |q| > 0 && IsHeap(order, q, |q|)
    ensures top == q[0] && |r| == |q| - 1 && IsHeap(order, r, |r|)
    ensures multiset(r) == multiset(q) - multiset{top}
  {
    var n := |q| - 1;
    var popped := PopHeap(order, q, |q|);
    assert popped == popped[..n] + [popped[n]];
    top, r := popped[n], popped[..n];
    forall i | 0 < i < |r| ensures ParentOk(order, r, i) {
      assert ParentOk(order, popped, i);
    }
  }

  lemma KeptAll(order: Order, q: seq<Entry>, k: nat)
    requires |q| <= k
    ensures IsTopK(order, multiset(q), multiset(q), k)
  {
    assert multiset(q) - multiset(q) == multiset{};
  }

  /** The full case of a push: the new entry takes the place of the top and sinks. */
  method ReplaceTop(order: Order, q: seq<Entry>, e: Entry) returns (r: seq<Entry>)
    requires |q| > 0 && IsHeap(order, q, |q|)
    ensures |r| == |q| && IsHeap(order, r, |r|)
    ensures multiset(r) == multiset(q) - multiset{q[0]} + multiset{e}
  {
    var n := |q|;
    var swapped := Swapped(q + [e], 0, n);
    var kept := swapped[..n];
    assert swapped == kept + [q[0]];
    forall i | 0 < i < n && (i - 1) / 2 != 0 ensures ParentOk(order, kept, i) {
      assert ParentOk(order, q, i);
    }
    r := SiftDown(order, kept, n);
  }
}
