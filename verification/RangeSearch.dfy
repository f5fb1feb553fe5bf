/** Range search over an iterator of candidates, and the flattened result it returns. */
module RangeSearches {
  import opened Bits
  import opened ResultHeaps

  /** `radius` is the further bound, exclusive; `closer` the closer bound, inclusive, if one is set.
      `order` says which of two distances is closer: `Better(order, a, b)`. */
  datatype Range = Range(order: Order, radius: real, closer: Option<real>)

  predicate TooClose(range: Range, dis: real) {
    range.closer.Some? && Better(range.order, dis, range.closer.value)
  }

  /** The candidate is kept while `bound` is in force. */
  predicate Inside(range: Range, bound: real, dis: real) {
    !TooClose(range, dis) && Better(range.order, dis, bound)
  }

  predicate TooFar(range: Range, bound: real, dis: real) {
    !TooClose(range, dis) && !Better(range.order, dis, bound)
  }

  /** The three cases in plain numbers: a candidate is too close, inside the range, or too far. */
  lemma Sides(range: Range, bound: real, dis: real)
    ensures TooClose(range, dis) <==>
            range.closer.Some? &&
            if range.order.KeepSmallest? then dis < range.closer.value else dis > range.closer.value
    ensures Inside(range, bound, dis) <==>
            if range.order.KeepSmallest? then dis < bound && (range.closer.Some? ==> range.closer.value <= dis)
            else dis > bound && (range.closer.Some? ==> range.closer.value >= dis)
    ensures TooFar(range, bound, dis) <==> !TooClose(range, dis) && !Inside(range, bound, dis)
  {
  }

  /** The candidates among the first `n` inside the range, in order. */
  function InRange(range: Range, items: seq<Entry>, n: nat): (r: seq<Entry>)
    requires n <= |items|
    ensures |r| <= n
  {
    if n == 0 then []
    else
      var r := InRange(range, items, n - 1);
      if Inside(range, range.radius, items[n - 1].dis) then r + [items[n - 1]] else r
  }

  /** Every kept item is in range, and every item in range is kept. */
  lemma {:induction false} InRangeExactly(range: Range, items: seq<Entry>, n: nat, e: Entry)
    requires n <= |items|
    ensures e in InRange(range, items, n) <==> e in items[..n] && Inside(range, range.radius, e.dis)
  {
    if n > 0 {
      InRangeExactly(range, items, n - 1, e);
      assert items[..n] == items[..n - 1] + [items[n - 1]];
    }
  }

  /** The candidates among the first `n` that are in range. */
  ghost function InRangeIndices(range: Range, items: seq<Entry>, n: nat): set<nat>
    requires n <= |items|
  {
    set i: nat | i < n && Inside(range, range.radius, items[i].dis)
  }

  lemma {:induction false} InRangeSize(range: Range, items: seq<Entry>, n: nat)
    requires n <= |items|
    ensures |InRange(range, items, n)| == |InRangeIndices(range, items, n)|
  {
    if n > 0 {
      InRangeSize(range, items, n - 1);
      var inside := Inside(range, range.radius, items[n - 1].dis);
      assert InRangeIndices(range, items, n)
          == InRangeIndices(range, items, n - 1) + if inside then {n - 1} else {};
    }
  }

  /** They keep their order: candidate `i` in range stands behind those in range before it. */
  lemma {:induction false} InRangeAt(range: Range, items: seq<Entry>, n: nat, i: nat)
    requires i < n <= |items| && Inside(range, range.radius, items[i].dis)
    ensures |InRangeIndices(range, items, i)| < |InRange(range, items, n)|
    ensures InRange(range, items, n)[|InRangeIndices(range, items, i)|] == items[i]
  {
    InRangeSize(range, items, i);
    if i < n - 1 {
      InRangeAt(range, items, n - 1, i);
    }
  }

  // ---- an iterator that yields candidates closest first ---------------------------------------

  /** The first `k` results, all of them when `k` is negative. */
  function FirstK(r: seq<Entry>, k: int): seq<Entry> {
    if 0 <= k < |r| then r[..k] else r
  }

  lemma {:induction false} InRangeGrows(range: Range, items: seq<Entry>, n: nat, m: nat)
    requires n <= m <= |items|
    ensures InRange(range, items, n) <= InRange(range, items, m)
    decreases m
  {
    if n < m {
      InRangeGrows(range, items, n, m - 1);
    }
  }

  /** Past the first candidate that is not closer than the radius, nothing is in range. */
  lemma {:induction false} NothingFurther(range: Range, items: seq<Entry>, i: nat, m: nat)
    requires BestFirst(range.order, items) && i < m <= |items|
    requires !Better(range.order, items[i].dis, range.radius)
    ensures InRange(range, items, m) == InRange(range, items, i)
    decreases m
  {
    assert !Better(range.order, items[m - 1].dis, items[i].dis);
    if i < m - 1 {
      NothingFurther(range, items, i, m - 1);
    }
  }

  /** After `m` candidates there are `k` results, or the last candidate was not closer than the radius. */
  ghost predicate Stops(range: Range, k: int, items: seq<Entry>, m: nat)
    requires m <= |items|
  {
    || (0 < k <= |InRange(range, items, m)|)
    || (m > 0 && TooFar(range, range.radius, items[m - 1].dis))
  }

  /** `n` is the first moment to stop, the end of the iterator if there is none. */
  ghost predicate StopsAt(range: Range, k: int, items: seq<Entry>, n: nat) {
    && n <= |items| && (n < |items| ==> Stops(range, k, items, n))
    && forall m :: 0 <= m < n ==> !Stops(range, k, items, m)
  }

  /** The task for an iterator that keeps its order. Whatever the order, the results are the candidates
      in range among those consumed, and it consumes up to the first moment it can stop; closest first, the
      results are the first `k` of all candidates in range. */
  method OrderedTask(range: Range, k: int, items: seq<Entry>) returns (kept: seq<Entry>, consumed: nat)
    requires k != 0
    ensures consumed <= |items| && kept == InRange(range, items, consumed) && (k > 0 ==> |kept| <= k)
    ensures BestFirst(range.order, items) ==> kept == FirstK(InRange(range, items, |items|), k)
    ensures StopsAt(range, k, items, consumed)
  {
    kept, consumed := [], 0;
    while consumed < |items|
      invariant consumed <= |items| && kept == InRange(range, items, consumed) && (k > 0 ==> |kept| < k)
      invariant forall m :: 0 <= m <= consumed ==> !Stops(range, k, items, m)
    {
      var e := items[consumed];
      consumed := consumed + 1;
      if TooClose(range, e.dis) {
        continue;
      }
      if !Better(range.order, e.dis, range.radius) {
        if BestFirst(range.order, items) {
          NothingFurther(range, items, consumed - 1, |items|);
        }
        return;
      }
      kept := kept + [e];
      if k >= 0 && |kept| >= k {
        InRangeGrows(range, items, consumed, |items|);
        return;
      }
    }
  }

  // ---- an iterator in no order ------------------------------------------------------------------

  /** The candidates among the first `n` that were kept when `bounds[i]` was in force for candidate `i`. */
  ghost function KeptUnder(range: Range, items: seq<Entry>, bounds: seq<real>, n: nat): (r: seq<Entry>)
    requires n <= |items| && n <= |bounds|
    ensures |r| <= n
  {
    if n == 0 then []
    else
      var r := KeptUnder(range, items, bounds, n - 1);
      if Inside(range, bounds[n - 1], items[n - 1].dis) then r + [items[n - 1]] else r
  }

  lemma {:induction false} KeptUnderPrefix(range: Range, items: seq<Entry>, bounds: seq<real>, more: seq<real>, n: nat)
    requires n <= |items| && n <= |bounds| && bounds <= more
    ensures KeptUnder(range, items, more, n) == KeptUnder(range, items, bounds, n)
  {
    if n > 0 {
      KeptUnderPrefix(range, items, bounds, more, n - 1);
    }
  }

  lemma {:induction false} KeptUnderGrows(range: Range, items: seq<Entry>, bounds: seq<real>, n: nat, m: nat)
    requires n <= m <= |items| && m <= |bounds|
    ensures KeptUnder(range, items, bounds, n) <= KeptUnder(range, items, bounds, m)
    decreases m
  {
    if n < m {
      KeptUnderGrows(range, items, bounds, n, m - 1);
    }
  }

  /** `bound` is the distance of a furthest entry of `top`. */
  ghost predicate FurthestIs(order: Order, top: multiset<Entry>, bound: real) {
    exists worst :: IsWorst(order, top, worst) && worst.dis == bound
  }

  /** `top` are the `k` closest of the results kept, not counting `dropped`, a furthest of the first `k`. */
  ghost predicate ClosestBut(order: Order, k: nat, kept: seq<Entry>, dropped: Entry, top: multiset<Entry>)
    requires k < |kept|
  {
    && IsWorst(order, multiset(kept[..k]), dropped)
    && |top| == k && IsTopK(order, top, multiset(kept) - multiset{dropped}, k)
  }

  /** The bound in force once `kept` are the results: the radius, until more than `k` are kept; from then
      on the `k`-th closest of them, not counting one furthest of the first `k`. */
  ghost predicate BoundLaw(range: Range, k: int, kept: seq<Entry>, bound: real) {
    if k < 0 || |kept| <= k then bound == range.radius
    else exists dropped, top :: ClosestBut(range.order, k, kept, dropped, top) && FurthestIs(range.order, top, bound)
  }

  /** The priority queue behind the bound, the furthest entry on top. */
  ghost predicate QueueLaw(range: Range, k: nat, kept: seq<Entry>, queue: seq<Entry>, dropped: Entry, bound: real) {
    && IsHeap(range.order, queue, |queue|)
    && if |kept| <= k then multiset(queue) == multiset(kept) && |queue| == |kept| && bound == range.radius
       else |queue| == k > 0 && bound == queue[0].dis && ClosestBut(range.order, k, kept, dropped, multiset(queue))
  }

  lemma QueueGivesBound(range: Range, k: nat, kept: seq<Entry>, queue: seq<Entry>, dropped: Entry, bound: real)
    requires QueueLaw(range, k, kept, queue, dropped, bound)
    ensures BoundLaw(range, k, kept, bound)
  {
    if |kept| > k {
      TopWorst(range.order, queue);
      assert FurthestIs(range.order, multiset(queue), bound);
    }
  }

  /** The first time a result comes on top of `k` others. */
  lemma FirstOverflow(order: Order, k: nat, kept: seq<Entry>, e: Entry, dropped: Entry)
    requires |kept| == k && IsWorst(order, multiset(kept), dropped)
    ensures ClosestBut(order, k, kept + [e], dropped, multiset(kept) - multiset{dropped} + multiset{e})
  {
    var top := multiset(kept) - multiset{dropped} + multiset{e};
    assert (kept + [e])[..k] == kept;
    assert |top| == k;
    assert multiset(kept + [e]) - multiset{dropped} == top;
    WholeIsTop(order, top, k);
  }

  lemma PrefixMember(kept: seq<Entry>, k: nat, x: Entry)
    requires k <= |kept| && x in multiset(kept[..k])
    ensures x in multiset(kept)
  {
    assert kept == kept[..k] + kept[k..];
  }

  lemma AppendBut(kept: seq<Entry>, k: nat, e: Entry, dropped: Entry)
    requires k <= |kept| && dropped in multiset(kept[..k])
    ensures (kept + [e])[..k] == kept[..k]
    ensures multiset(kept + [e]) - multiset{dropped} == multiset(kept) - multiset{dropped} + multiset{e}
  {
    PrefixMember(kept, k, dropped);
  }

  lemma ReplaceFurthest(order: Order, k: nat, top: multiset<Entry>, all: multiset<Entry>, worst: Entry, e: Entry)
    requires k > 0 && |top| == k && IsTopK(order, top, all, k)
    requires IsWorst(order, top, worst) && Better(order, e.dis, worst.dis)
    ensures var next := top - multiset{worst} + multiset{e}; |next| == k && IsTopK(order, next, all + multiset{e}, k)
  {
    var next := top - multiset{worst} + multiset{e};
    assert Pushed(order, k, top, e, next);
    PushKeepsTopK(order, k, top, all, e, next);
  }

  /** Every further result takes the place of a furthest one. */
  lemma {:induction false} LaterOverflow(order: Order, k: nat, kept: seq<Entry>, e: Entry, dropped: Entry,
                                         top: multiset<Entry>, worst: Entry)
    requires 0 < k < |kept| && ClosestBut(order, k, kept, dropped, top)
    requires IsWorst(order, top, worst) && Better(order, e.dis, worst.dis)
    ensures ClosestBut(order, k, kept + [e], dropped, top - multiset{worst} + multiset{e})
  {
    AppendBut(kept, k, e, dropped);
    ReplaceFurthest(order, k, top, multiset(kept) - multiset{dropped}, worst, e);
  }

  /** A result goes into the queue; once the queue is full, a furthest one leaves it and its top becomes the
      bound. */
  method Retain(range: Range, k: nat, queue: seq<Entry>, e: Entry, bound: real,
                ghost kept: seq<Entry>, ghost dropped: Entry)
    returns (next: seq<Entry>, tighter: real, ghost dropped': Entry)
    requires k > 0 && QueueLaw(range, k, kept, queue, dropped, bound) && Better(range.order, e.dis, bound)
    ensures QueueLaw(range, k, kept + [e], next, dropped', tighter)
    ensures forall x :: x in next ==> x in queue || x == e
    ensures |kept| < k ==> tighter == bound
    ensures |kept| >= k ==> next != [] && tighter == next[0].dis
  {
    tighter, dropped' := bound, dropped;
    if |queue| < k {
      next := AddEntry(range.order, queue, e);
      assert forall x :: x in next ==> x in multiset(next);
    } else {
      TopWorst(range.order, queue);
      var worst, rest := RemoveTop(range.order, queue);
      next := AddEntry(range.order, rest, e);
      tighter := next[0].dis;
      if |kept| == k {
        dropped' := worst;
        FirstOverflow(range.order, k, kept, e, dropped');
      } else {
        LaterOverflow(range.order, k, kept, e, dropped, multiset(queue), worst);
      }
      assert forall x :: x in next ==> x in multiset(next);
    }
  }

  /** How many of the first `n` candidates were too far since the last one kept; those too close do not
      count and do not end the run. */
  ghost function TooFarRun(range: Range, items: seq<Entry>, bounds: seq<real>, n: nat): nat
    requires n <= |items| && n <= |bounds|
  {
    if n == 0 then 0
    else if TooClose(range, items[n - 1].dis) then TooFarRun(range, items, bounds, n - 1)
    else if TooFar(range, bounds[n - 1], items[n - 1].dis) then TooFarRun(range, items, bounds, n - 1) + 1
    else 0
  }

  predicate OverLimit(run: nat, level: real, n: nat) {
    run > -((-(n as real * level)).Floor)
  }

  /** The limit of `ceil(n * level)` is passed by a whole candidate more than `n * level`. */
  lemma OverLimitIff(run: nat, level: real, n: nat)
    ensures OverLimit(run, level, n) <==> run as real >= n as real * level + 1.0
  {
  }

  ghost predicate NoneKept(range: Range, items: seq<Entry>, bounds: seq<real>, from: nat, to: nat)
    requires to <= |items| && to <= |bounds|
  {
    forall j :: from <= j < to ==> !Inside(range, bounds[j], items[j].dis)
  }

  /** The candidates among the first `n` that were too far and after which none was kept. */
  ghost function FarSince(range: Range, items: seq<Entry>, bounds: seq<real>, n: nat): set<nat>
    requires n <= |items| && n <= |bounds|
  {
    set i: nat | i < n && TooFar(range, bounds[i], items[i].dis) && NoneKept(range, items, bounds, i + 1, n)
  }

  lemma FarSinceStep(range: Range, items: seq<Entry>, bounds: seq<real>, n: nat)
    requires n < |items| && n < |bounds|
    ensures var dis, before := items[n].dis, FarSince(range, items, bounds, n);
            FarSince(range, items, bounds, n + 1) ==
              if TooClose(range, dis) then before
              else if TooFar(range, bounds[n], dis) then before + {n}
              else {}
  {
    var dis := items[n].dis;
    var before, next := FarSince(range, items, bounds, n), FarSince(range, items, bounds, n + 1);
    forall i: nat | i < n ensures i in next <==> i in before && !Inside(range, bounds[n], dis) {
      assert NoneKept(range, items, bounds, i + 1, n + 1) <==>
             NoneKept(range, items, bounds, i + 1, n) && !Inside(range, bounds[n], dis);
    }
    assert NoneKept(range, items, bounds, n + 1, n + 1);
    assert n in next <==> TooFar(range, bounds[n], dis);
  }

  /** The run that the task counts is their number. */
  lemma {:induction false} RunIsFarSince(range: Range, items: seq<Entry>, bounds: seq<real>, n: nat)
    requires n <= |items| && n <= |bounds|
    ensures TooFarRun(range, items, bounds, n) == |FarSince(range, items, bounds, n)|
  {
    if n > 0 {
      RunIsFarSince(range, items, bounds, n - 1);
      FarSinceStep(range, items, bounds, n - 1);
      assert n - 1 !in FarSince(range, items, bounds, n - 1);
    }
  }

  /** The task gives up after candidate `n - 1`: it was too far, and with it more than a share `level` of the `n`
      candidates, by one or more, were too far since the last one kept. */
  ghost predicate GivesUp(range: Range, level: real, items: seq<Entry>, bounds: seq<real>, n: nat)
    requires 0 < n <= |items| && n <= |bounds|
  {
    && TooFar(range, bounds[n - 1], items[n - 1].dis)
    && |FarSince(range, items, bounds, n)| as real >= n as real * level + 1.0
  }

  lemma GivesUpByRun(range: Range, level: real, items: seq<Entry>, bounds: seq<real>, n: nat)
    requires 0 < n <= |items| && n <= |bounds|
    ensures GivesUp(range, level, items, bounds, n) <==>
            TooFar(range, bounds[n - 1], items[n - 1].dis) && OverLimit(TooFarRun(range, items, bounds, n), level, n)
  {
    RunIsFarSince(range, items, bounds, n);
    OverLimitIff(TooFarRun(range, items, bounds, n), level, n);
  }

  /** `bounds[i]` is the bound that the first `i` candidates led to, and no further than the one before. */
  ghost predicate Lawful(range: Range, k: int, items: seq<Entry>, bounds: seq<real>, i: nat)
    requires i <= |items| && i < |bounds|
  {
    && BoundLaw(range, k, KeptUnder(range, items, bounds, i), bounds[i])
    && (i > 0 ==> !Better(range.order, bounds[i - 1], bounds[i]))
  }

  /** The bounds in force over the first `n` candidates and after them. */
  ghost predicate IsTrace(range: Range, k: int, items: seq<Entry>, bounds: seq<real>, n: nat) {
    && n <= |items| && |bounds| == n + 1
    && forall i :: 0 <= i <= n ==> Lawful(range, k, items, bounds, i)
  }

  ghost predicate GoesOn(range: Range, level: real, items: seq<Entry>, bounds: seq<real>, n: nat)
    requires n <= |items| + 1 && n <= |bounds| + 1
  {
    forall i :: 0 < i < n ==> !GivesUp(range, level, items, bounds, i)
  }

  lemma {:induction false} RunPrefix(range: Range, items: seq<Entry>, bounds: seq<real>, more: seq<real>, n: nat)
    requires n <= |items| && n <= |bounds| && bounds <= more
    ensures TooFarRun(range, items, more, n) == TooFarRun(range, items, bounds, n)
  {
    if n > 0 {
      RunPrefix(range, items, bounds, more, n - 1);
    }
  }

  lemma {:induction false} ExtendTrace(range: Range, k: int, items: seq<Entry>, bounds: seq<real>, n: nat, b: real)
    requires IsTrace(range, k, items, bounds, n) && n < |items|
    requires BoundLaw(range, k, KeptUnder(range, items, bounds, n + 1), b) && !Better(range.order, bounds[n], b)
    ensures IsTrace(range, k, items, bounds + [b], n + 1)
    ensures KeptUnder(range, items, bounds + [b], n + 1) == KeptUnder(range, items, bounds, n + 1)
    ensures TooFarRun(range, items, bounds + [b], n + 1) == TooFarRun(range, items, bounds, n + 1)
  {
    var more := bounds + [b];
    forall i | 0 <= i <= n + 1 ensures Lawful(range, k, items, more, i) {
      KeptUnderPrefix(range, items, bounds, more, i);
      assert i <= n ==> Lawful(range, k, items, bounds, i);
    }
    KeptUnderPrefix(range, items, bounds, more, n + 1);
    RunPrefix(range, items, bounds, more, n + 1);
  }

  /** What the task knows after `n` candidates. */
  ghost predicate Scanned(range: Range, k: int, level: real, items: seq<Entry>, bounds: seq<real>, n: nat,
                          kept: seq<Entry>, run: nat) {
    && IsTrace(range, k, items, bounds, n)
    && kept == KeptUnder(range, items, bounds, n) && run == TooFarRun(range, items, bounds, n)
    && GoesOn(range, level, items, bounds, n)
  }

  lemma {:induction false} ExtendGoesOn(range: Range, level: real, items: seq<Entry>, bounds: seq<real>,
                                        n: nat, b: real)
    requires n <= |items| && n < |bounds| && GoesOn(range, level, items, bounds, n + 1)
    ensures GoesOn(range, level, items, bounds + [b], n + 1)
  {
    forall i | 0 < i < n + 1 ensures !GivesUp(range, level, items, bounds + [b], i) {
      RunPrefix(range, items, bounds, bounds + [b], i);
      GivesUpByRun(range, level, items, bounds, i);
      GivesUpByRun(range, level, items, bounds + [b], i);
    }
  }

  /** What one candidate does to the results and the run. */
  ghost predicate Took(range: Range, bound: real, e: Entry, kept: seq<Entry>, run: nat, kept': seq<Entry>, run': nat) {
    && kept' == (if Inside(range, bound, e.dis) then kept + [e] else kept)
    && run' == if TooClose(range, e.dis) then run else if TooFar(range, bound, e.dis) then run + 1 else 0
  }

  lemma {:induction false} TookOne(range: Range, items: seq<Entry>, bounds: seq<real>, n: nat,
                                   kept': seq<Entry>, run': nat)
    requires n < |items| && n < |bounds|
    requires Took(range, bounds[n], items[n], KeptUnder(range, items, bounds, n), TooFarRun(range, items, bounds, n),
                  kept', run')
    ensures kept' == KeptUnder(range, items, bounds, n + 1) && run' == TooFarRun(range, items, bounds, n + 1)
  {
  }

  lemma {:induction false} GivesUpNext(range: Range, level: real, items: seq<Entry>, bounds: seq<real>,
                                       n: nat, b: real, run': nat)
    requires n < |items| && n < |bounds| == n + 1 && run' == TooFarRun(range, items, bounds + [b], n + 1)
    ensures GivesUp(range, level, items, bounds + [b], n + 1) <==>
            TooFar(range, bounds[n], items[n].dis) && OverLimit(run', level, n + 1)
  {
    GivesUpByRun(range, level, items, bounds + [b], n + 1);
  }

  lemma {:induction false} ScanStep(range: Range, k: int, level: real, items: seq<Entry>, bounds: seq<real>, n: nat,
                                    kept: seq<Entry>, run: nat, b: real, kept': seq<Entry>, run': nat, givesUp: bool)
    requires Scanned(range, k, level, items, bounds, n, kept, run) && n < |items|
    requires n > 0 ==> !GivesUp(range, level, items, bounds, n)
    requires Took(range, bounds[n], items[n], kept, run, kept', run')
    requires BoundLaw(range, k, kept', b) && !Better(range.order, bounds[n], b)
    requires givesUp == (TooFar(range, bounds[n], items[n].dis) && OverLimit(run', level, n + 1))
    ensures Scanned(range, k, level, items, bounds + [b], n + 1, kept', run')
    ensures GivesUp(range, level, items, bounds + [b], n + 1) == givesUp
  {
    TookOne(range, items, bounds, n, kept', run');
    ExtendTrace(range, k, items, bounds, n, b);
    assert GoesOn(range, level, items, bounds, n + 1);
    ExtendGoesOn(range, level, items, bounds, n, b);
    GivesUpNext(range, level, items, bounds, n, b, run');
  }

  ghost predicate AllCloser(order: Order, kept: seq<Entry>, radius: real) {
    forall x :: x in kept ==> Better(order, x.dis, radius)
  }

  /** What the bound and the queue behind it are worth. */
  ghost predicate Bookkeeping(range: Range, k: int, kept: seq<Entry>, queue: seq<Entry>, dropped: Entry, bound: real) {
    && AllCloser(range.order, kept, range.radius) && !Better(range.order, range.radius, bound)
    && if k > 0 then QueueLaw(range, k, kept, queue, dropped, bound) else bound == range.radius
  }

  lemma BookkeepingGivesBound(range: Range, k: int, kept: seq<Entry>, queue: seq<Entry>, dropped: Entry, bound: real)
    requires k != 0 && Bookkeeping(range, k, kept, queue, dropped, bound)
    ensures BoundLaw(range, k, kept, bound)
  {
    if k > 0 {
      QueueGivesBound(range, k, kept, queue, dropped, bound);
    }
  }

  /** Only results go into the queue, so none of it is further than the bound in force. */
  lemma TopNoFurther(range: Range, k: nat, kept: seq<Entry>, queue: seq<Entry>, dropped: Entry, bound: real, x: Entry)
    requires QueueLaw(range, k, kept, queue, dropped, bound) && AllCloser(range.order, kept, range.radius)
    requires x in queue && |kept| >= k
    ensures !Better(range.order, bound, x.dis)
  {
    if |kept| == k {
      assert x in multiset(queue);
      assert x in kept;
    } else {
      TopWorst(range.order, queue);
      assert x in multiset(queue);
    }
  }

  /** The bookkeeping for a new result, with or without a limit. */
  method KeepResult(range: Range, k: int, queue: seq<Entry>, e: Entry, bound: real,
                    ghost kept: seq<Entry>, ghost dropped: Entry)
    returns (next: seq<Entry>, tighter: real, ghost dropped': Entry)
    requires k != 0 && Bookkeeping(range, k, kept, queue, dropped, bound) && Better(range.order, e.dis, bound)
    ensures Bookkeeping(range, k, kept + [e], next, dropped', tighter) && !Better(range.order, bound, tighter)
  {
    next, tighter, dropped' := queue, bound, dropped;
    if k > 0 {
      next, tighter, dropped' := Retain(range, k, queue, e, bound, kept, dropped);
      if |kept| >= k {
        assert next[0] in queue || next[0] == e;
        if next[0] in queue {
          TopNoFurther(range, k, kept, queue, dropped, bound, next[0]);
        }
      }
    }
  }

  /** The results are the candidates inside the bound in force when they came, the bounds follow `BoundLaw`
      and never move further, and the task ends at the end of the iterator or with the first candidate `n - 1`
      that makes at least `n * level + 1` of them too far since the last one kept. */
  ghost predicate UnorderedResult(range: Range, k: int, level: real, items: seq<Entry>, bounds: seq<real>, n: nat,
                                  kept: seq<Entry>) {
    && IsTrace(range, k, items, bounds, n) && kept == KeptUnder(range, items, bounds, n)
    && GoesOn(range, level, items, bounds, n)
    && (n < |items| ==> n > 0 && GivesUp(range, level, items, bounds, n))
  }

  /** One candidate, the `count`-th: skipped, too far, or a result. */
  method TakeCandidate(range: Range, k: int, level: real, count: nat, e: Entry,
                       kept: seq<Entry>, run: nat, queue: seq<Entry>, bound: real, ghost dropped: Entry)
    returns (kept': seq<Entry>, run': nat, queue': seq<Entry>, bound': real, givesUp: bool, ghost dropped': Entry)
    requires k != 0 && Bookkeeping(range, k, kept, queue, dropped, bound)
    ensures Took(range, bound, e, kept, run, kept', run')
    ensures Bookkeeping(range, k, kept', queue', dropped', bound')
    ensures BoundLaw(range, k, kept', bound') && !Better(range.order, bound, bound')
    ensures givesUp == (TooFar(range, bound, e.dis) && OverLimit(run', level, count))
  {
    kept', run', queue', bound', givesUp, dropped' := kept, run, queue, bound, false, dropped;
    if TooClose(range, e.dis) {
    } else if !Better(range.order, e.dis, bound) {
      run' := run + 1;
      givesUp := OverLimit(run', level, count);
    } else {
      queue', bound', dropped' := KeepResult(range, k, queue, e, bound, kept, dropped);
      run', kept' := 0, kept + [e];
    }
    BookkeepingGivesBound(range, k, kept', queue', dropped', bound');
  }

  lemma {:induction false} ScanStart(range: Range, k: int, level: real, items: seq<Entry>, dropped: Entry)
    requires k != 0
    ensures Scanned(range, k, level, items, [range.radius], 0, [], 0)
    ensures Bookkeeping(range, k, [], [], dropped, range.radius)
  {
  }

  /** The candidate after `n` others, and what is known then. */
  method ScanOne(range: Range, k: int, level: real, items: seq<Entry>, n: nat, kept: seq<Entry>, run: nat,
                 queue: seq<Entry>, bound: real, ghost bounds: seq<real>, ghost dropped: Entry)
    returns (kept': seq<Entry>, run': nat, queue': seq<Entry>, bound': real, givesUp: bool, ghost dropped': Entry)
    requires k != 0 && n < |items| && |bounds| == n + 1 && bounds[n] == bound
    requires Scanned(range, k, level, items, bounds, n, kept, run)
    requires n > 0 ==> !GivesUp(range, level, items, bounds, n)
    requires Bookkeeping(range, k, kept, queue, dropped, bound)
    ensures Scanned(range, k, level, items, bounds + [bound'], n + 1, kept', run')
    ensures givesUp == GivesUp(range, level, items, bounds + [bound'], n + 1)
    ensures Bookkeeping(range, k, kept', queue', dropped', bound')
  {
    kept', run', queue', bound', givesUp, dropped' :=
      TakeCandidate(range, k, level, n + 1, items[n], kept, run, queue, bound, dropped);
    ScanStep(range, k, level, items, bounds, n, kept, run, bound', kept', run', givesUp);
  }

  /** The loop of the task, with the bounds that were in force. */
  method ScanUnordered(range: Range, k: int, level: real, items: seq<Entry>)
    returns (kept: seq<Entry>, consumed: nat, ghost bounds: seq<real>)
    requires k != 0 && 0.0 <= level <= 0.5
    ensures UnorderedResult(range, k, level, items, bounds, consumed, kept)
  {
    kept, consumed, bounds := [], 0, [range.radius];
    var queue: seq<Entry>, bound, run: nat := [], range.radius, 0;
    ghost var dropped := Entry(0.0, 0);
    var givesUp := false;
    ScanStart(range, k, level, items, dropped);
    while consumed < |items| && !givesUp
      invariant consumed <= |items| && |bounds| == consumed + 1 && bounds[consumed] == bound
      invariant Scanned(range, k, level, items, bounds, consumed, kept, run)
      invariant givesUp == (consumed > 0 && GivesUp(range, level, items, bounds, consumed))
      invariant Bookkeeping(range, k, kept, queue, dropped, bound)
      decreases |items| - consumed
    {
      kept, run, queue, bound, givesUp, dropped :=
        ScanOne(range, k, level, items, consumed, kept, run, queue, bound, bounds, dropped);
      bounds, consumed := bounds + [bound], consumed + 1;
    }
  }

  // ---- what a run of the unordered task guarantees -------------------------------------------------

  lemma {:induction false} BoundsNeverMoveFurther(range: Range, k: int, items: seq<Entry>, bounds: seq<real>,
                                                  n: nat, i: nat, j: nat)
    requires IsTrace(range, k, items, bounds, n) && i <= j <= n
    ensures !Better(range.order, bounds[i], bounds[j])
    decreases j
  {
    if i < j {
      BoundsNeverMoveFurther(range, k, items, bounds, n, i, j - 1);
      assert Lawful(range, k, items, bounds, j);
    }
  }

  /** Without a limit the results are exactly the candidates in range, in order. */
  lemma {:induction false} UnlimitedKeepsAll(range: Range, k: int, items: seq<Entry>, bounds: seq<real>, n: nat, m: nat)
    requires k < 0 && IsTrace(range, k, items, bounds, n) && m <= n
    ensures KeptUnder(range, items, bounds, m) == InRange(range, items, m)
    decreases m
  {
    if m > 0 {
      UnlimitedKeepsAll(range, k, items, bounds, n, m - 1);
      assert Lawful(range, k, items, bounds, m - 1);
    }
  }

  /** How many results are no further than `dis`. */
  ghost function CountNoFurther(order: Order, results: seq<Entry>, dis: real): nat {
    if results == [] then 0
    else
      var n := |results| - 1;
      CountNoFurther(order, results[..n], dis) + if Better(order, dis, results[n].dis) then 0 else 1
  }

  lemma {:induction false} CountAtLeast(order: Order, results: seq<Entry>, dis: real, some: multiset<Entry>)
    requires some <= multiset(results) && forall x :: x in some ==> !Better(order, dis, x.dis)
    ensures CountNoFurther(order, results, dis) >= |some|
    decreases |results|
  {
    if results != [] {
      var n := |results| - 1;
      assert results == results[..n] + [results[n]];
      var rest := some - multiset{results[n]};
      assert rest <= multiset(results[..n]);
      CountAtLeast(order, results[..n], dis, rest);
    } else {
      assert some == multiset{};
    }
  }

  lemma {:induction false} CountGrows(order: Order, results: seq<Entry>, n: nat, dis: real)
    requires n <= |results|
    ensures CountNoFurther(order, results[..n], dis) <= CountNoFurther(order, results, dis)
    decreases |results|
  {
    if n < |results| {
      var m := |results| - 1;
      assert results[..m][..n] == results[..n];
      CountGrows(order, results[..m], n, dis);
    } else {
      assert results[..n] == results;
    }
  }

  lemma BoundHasK(range: Range, k: nat, kept: seq<Entry>, bound: real, dis: real)
    requires BoundLaw(range, k, kept, bound) && bound != range.radius && !Better(range.order, dis, bound)
    ensures CountNoFurther(range.order, kept, dis) >= k
  {
    var dropped, top :| ClosestBut(range.order, k, kept, dropped, top) && FurthestIs(range.order, top, bound);
    var worst :| IsWorst(range.order, top, worst) && worst.dis == bound;
    CountAtLeast(range.order, kept, dis, top);
  }

  /** A candidate inside the range that a tightened bound turned away has `k` results that are no further. */
  lemma TurnedAwayHaveK(range: Range, k: nat, items: seq<Entry>, bounds: seq<real>, n: nat, i: nat)
    requires IsTrace(range, k, items, bounds, n) && i < n
    requires Inside(range, range.radius, items[i].dis) && !Inside(range, bounds[i], items[i].dis)
    ensures CountNoFurther(range.order, KeptUnder(range, items, bounds, n), items[i].dis) >= k
  {
    var before, after := KeptUnder(range, items, bounds, i), KeptUnder(range, items, bounds, n);
    assert Lawful(range, k, items, bounds, i);
    BoundHasK(range, k, before, bounds[i], items[i].dis);
    KeptUnderGrows(range, items, bounds, i, n);
    assert after[..|before|] == before;
    CountGrows(range.order, after, |before|, items[i].dis);
  }

  /** `k` entries cannot all be strictly closer than one of the `k` closest. */
  lemma NotAllCloser(order: Order, k: nat, top: multiset<Entry>, all: multiset<Entry>, some: multiset<Entry>, y: Entry)
    requires IsTopK(order, top, all, k) && y in top && some <= all && |some| == k
    ensures exists s :: s in some && !Better(order, s.dis, y.dis)
  {
    if forall s :: s in some ==> Better(order, s.dis, y.dis) {
      forall s | s in some ensures some[s] <= top[s] {
        assert s in all - top ==> MayPrefer(order, y, s);
      }
      assert some <= top;
      SubsetSize(some, top);
      SameSize(some, top);
    }
  }

  /** `bound` is the `k`-th closest distance of `all`. */
  ghost predicate IsKth(order: Order, k: nat, all: multiset<Entry>, bound: real) {
    exists top :: |top| == k && IsTopK(order, top, all, k) && FurthestIs(order, top, bound)
  }

  /** Some result after the first `k` is no further than a furthest of the first `k`. */
  ghost predicate CaughtUp(order: Order, k: nat, kept: seq<Entry>, dropped: Entry)
    requires k <= |kept|
  {
    exists x :: x in kept[k..] && !Better(order, dropped.dis, x.dis)
  }

  lemma FirstKParts(k: nat, kept: seq<Entry>, dropped: Entry)
    requires k < |kept| && dropped in multiset(kept[..k])
    ensures multiset(kept) - multiset{dropped} == multiset(kept[..k]) - multiset{dropped} + multiset(kept[k..])
    ensures |multiset(kept[..k]) - multiset{dropped}| == k - 1 && multiset(kept[..k]) <= multiset(kept)
  {
    assert kept == kept[..k] + kept[k..];
    assert |multiset(kept[..k])| == k;
  }

  lemma {:induction false} CaughtUpIsKth(order: Order, k: nat, kept: seq<Entry>, dropped: Entry,
                                         top: multiset<Entry>, bound: real)
    requires k < |kept| && ClosestBut(order, k, kept, dropped, top) && FurthestIs(order, top, bound)
    requires CaughtUp(order, k, kept, dropped)
    ensures IsKth(order, k, multiset(kept), bound)
  {
    FirstKParts(k, kept, dropped);
    var x :| x in kept[k..] && !Better(order, dropped.dis, x.dis);
    var all := multiset(kept) - multiset{dropped};
    var some := multiset(kept[..k]) - multiset{dropped} + multiset{x};
    assert x in multiset(kept[k..]);
    assert some <= all && |some| == k;
    forall y | y in top ensures MayPrefer(order, y, dropped) {
      NotAllCloser(order, k, top, all, some, y);
      var s :| s in some && !Better(order, s.dis, y.dis);
      assert s == x || s in multiset(kept[..k]);
    }
    AddBack(order, k, top, multiset(kept), dropped);
  }

  lemma AddBack(order: Order, k: nat, top: multiset<Entry>, all: multiset<Entry>, dropped: Entry)
    requires dropped in all && IsTopK(order, top, all - multiset{dropped}, k) && |top| == k
    requires forall y :: y in top ==> MayPrefer(order, y, dropped)
    ensures IsTopK(order, top, all, k)
  {
    assert all - top == all - multiset{dropped} - top + multiset{dropped};
    forall x, y | x in top && y in all - top ensures MayPrefer(order, x, y) {
      assert y == dropped || y in all - multiset{dropped} - top;
    }
  }

  lemma LaggingIsNotKth(order: Order, k: nat, kept: seq<Entry>, dropped: Entry, top: multiset<Entry>, bound: real)
    requires 0 < k < |kept| && ClosestBut(order, k, kept, dropped, top) && FurthestIs(order, top, bound)
    requires !CaughtUp(order, k, kept, dropped)
    ensures Better(order, dropped.dis, bound) && !IsKth(order, k, multiset(kept), bound)
  {
    FirstKParts(k, kept, dropped);
    LaterInTop(order, k, kept, dropped, top);
    var x :| x in top && Better(order, dropped.dis, x.dis);
    var w :| IsWorst(order, top, w) && w.dis == bound;
    if IsKth(order, k, multiset(kept), bound) {
      var other :| |other| == k && IsTopK(order, other, multiset(kept), k) && FurthestIs(order, other, bound);
      var y :| IsWorst(order, other, y) && y.dis == bound;
      NotAllCloser(order, k, other, multiset(kept), multiset(kept[..k]), y);
    }
  }

  lemma LaterInTop(order: Order, k: nat, kept: seq<Entry>, dropped: Entry, top: multiset<Entry>)
    requires 0 < k < |kept| && ClosestBut(order, k, kept, dropped, top) && !CaughtUp(order, k, kept, dropped)
    ensures exists x :: x in top && Better(order, dropped.dis, x.dis)
  {
    FirstKParts(k, kept, dropped);
    var early := multiset(kept[..k]) - multiset{dropped};
    if forall x :: x in top ==> !Better(order, dropped.dis, x.dis) {
      forall x | x in top ensures top[x] <= early[x] {
        assert x !in multiset(kept[k..]);
      }
      SubsetSize(top, early);
    }
  }

  lemma KeptBoundIsKthIff(range: Range, k: nat, kept: seq<Entry>, bound: real, furthest: Entry)
    requires 0 < k < |kept| && BoundLaw(range, k, kept, bound)
    requires IsWorst(range.order, multiset(kept[..k]), furthest)
    ensures IsKth(range.order, k, multiset(kept), bound) <==> CaughtUp(range.order, k, kept, furthest)
    ensures !CaughtUp(range.order, k, kept, furthest) ==> Better(range.order, furthest.dis, bound)
  {
    var dropped, top :| ClosestBut(range.order, k, kept, dropped, top) && FurthestIs(range.order, top, bound);
    assert dropped.dis == furthest.dis;
    if CaughtUp(range.order, k, kept, dropped) {
      CaughtUpIsKth(range.order, k, kept, dropped, top, bound);
    } else {
      LaggingIsNotKth(range.order, k, kept, dropped, top, bound);
    }
  }

  /** Up to one more than `k`, the results are the candidates in range. */
  lemma {:induction false} FirstResults(range: Range, k: nat, items: seq<Entry>, bounds: seq<real>, n: nat, m: nat)
    requires IsTrace(range, k, items, bounds, n) && m <= n
    ensures var kept, all := KeptUnder(range, items, bounds, m), InRange(range, items, m);
            if |kept| <= k then kept == all else |all| > k && kept[..k + 1] == all[..k + 1]
    decreases m
  {
    if m > 0 {
      FirstResults(range, k, items, bounds, n, m - 1);
      assert Lawful(range, k, items, bounds, m - 1);
    }
  }

  lemma CaughtUpOneMore(order: Order, k: nat, s: seq<Entry>, e: Entry, furthest: Entry)
    requires k <= |s|
    ensures CaughtUp(order, k, s + [e], furthest) <==>
            CaughtUp(order, k, s, furthest) || !Better(order, furthest.dis, e.dis)
  {
    assert (s + [e])[k..] == s[k..] + [e];
    assert e in s[k..] + [e];
  }

  /** A candidate that a lagging bound turned away is further than all of the first `k`. */
  lemma LaggingTurnsAwayFurther(range: Range, k: nat, kept: seq<Entry>, bound: real, furthest: Entry, e: Entry)
    requires 0 < k < |kept| && BoundLaw(range, k, kept, bound) && IsWorst(range.order, multiset(kept[..k]), furthest)
    requires !CaughtUp(range.order, k, kept, furthest) && !Better(range.order, e.dis, bound)
    ensures Better(range.order, furthest.dis, e.dis)
  {
    KeptBoundIsKthIff(range, k, kept, bound, furthest);
  }

  lemma CaughtUpStep(range: Range, k: nat, kept: seq<Entry>, all: seq<Entry>, bound: real, furthest: Entry, e: Entry)
    requires 0 < k < |kept| && k <= |all| && BoundLaw(range, k, kept, bound)
    requires !Better(range.order, range.radius, bound)
    requires IsWorst(range.order, multiset(kept[..k]), furthest)
    requires CaughtUp(range.order, k, kept, furthest) <==> CaughtUp(range.order, k, all, furthest)
    ensures CaughtUp(range.order, k, if Inside(range, bound, e.dis) then kept + [e] else kept, furthest)
       <==> CaughtUp(range.order, k, if Inside(range, range.radius, e.dis) then all + [e] else all, furthest)
  {
    CaughtUpOneMore(range.order, k, kept, e, furthest);
    CaughtUpOneMore(range.order, k, all, e, furthest);
    if !TooClose(range, e.dis) && !Better(range.order, e.dis, bound) && !CaughtUp(range.order, k, kept, furthest) {
      LaggingTurnsAwayFurther(range, k, kept, bound, furthest, e);
    }
  }

  /** It makes no difference whether the results or all candidates in range are asked. */
  lemma {:induction false} CaughtUpByCandidates(range: Range, k: nat, items: seq<Entry>, bounds: seq<real>, n: nat,
                                                m: nat, furthest: Entry)
    requires IsTrace(range, k, items, bounds, n) && m <= n && 0 < k < |KeptUnder(range, items, bounds, m)|
    requires IsWorst(range.order, multiset(KeptUnder(range, items, bounds, m)[..k]), furthest)
    ensures k < |InRange(range, items, m)|
    ensures CaughtUp(range.order, k, KeptUnder(range, items, bounds, m), furthest)
       <==> CaughtUp(range.order, k, InRange(range, items, m), furthest)
    decreases m
  {
    var kept := KeptUnder(range, items, bounds, m - 1);
    if |kept| <= k {
      FirstOver(range, k, items, bounds, n, m - 1);
    } else {
      SameFirst(range, k, items, bounds, m - 1);
      CaughtUpByCandidates(range, k, items, bounds, n, m - 1, furthest);
      WithinRadius(range, k, items, bounds, n, m - 1);
      assert Lawful(range, k, items, bounds, m - 1);
      CaughtUpStep(range, k, kept, InRange(range, items, m - 1), bounds[m - 1], furthest, items[m - 1]);
    }
  }

  /** The result that is one too many is the candidate in range that is. */
  lemma FirstOver(range: Range, k: nat, items: seq<Entry>, bounds: seq<real>, n: nat, m: nat)
    requires IsTrace(range, k, items, bounds, n) && m < n
    requires |KeptUnder(range, items, bounds, m)| <= k
    ensures KeptUnder(range, items, bounds, m + 1) == InRange(range, items, m + 1)
  {
    FirstResults(range, k, items, bounds, n, m);
    assert Lawful(range, k, items, bounds, m);
  }

  lemma SameFirst(range: Range, k: nat, items: seq<Entry>, bounds: seq<real>, m: nat)
    requires m < |items| && m < |bounds| && k <= |KeptUnder(range, items, bounds, m)|
    ensures k <= |KeptUnder(range, items, bounds, m + 1)|
    ensures KeptUnder(range, items, bounds, m + 1)[..k] == KeptUnder(range, items, bounds, m)[..k]
  {
  }

  /** No bound is further than the radius. */
  lemma WithinRadius(range: Range, k: int, items: seq<Entry>, bounds: seq<real>, n: nat, m: nat)
    requires IsTrace(range, k, items, bounds, n) && m <= n && k != 0
    ensures !Better(range.order, range.radius, bounds[m])
  {
    assert Lawful(range, k, items, bounds, 0);
    BoundsNeverMoveFurther(range, k, items, bounds, n, 0, m);
  }

  /** Once more than `k` candidates are in range, the bound is the `k`-th closest result exactly when some
      candidate in range after the first `k` is no further than a furthest of the first `k`; until then it
      lags behind. */
  lemma BoundIsKthIff(range: Range, k: nat, items: seq<Entry>, bounds: seq<real>, n: nat, furthest: Entry)
    requires IsTrace(range, k, items, bounds, n) && 0 < k < |InRange(range, items, n)|
    requires IsWorst(range.order, multiset(InRange(range, items, n)[..k]), furthest)
    ensures IsKth(range.order, k, multiset(KeptUnder(range, items, bounds, n)), bounds[n])
       <==> CaughtUp(range.order, k, InRange(range, items, n), furthest)
  {
    var kept, all := KeptUnder(range, items, bounds, n), InRange(range, items, n);
    FirstResults(range, k, items, bounds, n, n);
    assert kept[..k] == kept[..k + 1][..k] == all[..k + 1][..k] == all[..k];
    assert Lawful(range, k, items, bounds, n);
    CaughtUpByCandidates(range, k, items, bounds, n, n, furthest);
    KeptBoundIsKthIff(range, k, kept, bounds[n], furthest);
  }

  /** With a limit of one, a second result replaces the first in the queue and becomes the bound. */
  lemma SecondIsBound(range: Range, first: Entry, second: Entry)
    ensures BoundLaw(range, 1, [first, second], second.dis)
  {
    var kept := [first, second];
    assert kept[..1] == [first];
    assert multiset(kept) - multiset{first} == multiset{second};
    assert ClosestBut(range.order, 1, kept, first, multiset{second});
    assert IsWorst(range.order, multiset{second}, second);
  }

  lemma TwoKept(range: Range, items: seq<Entry>, bounds: seq<real>)
    requires |items| == 2 && bounds == [range.radius, range.radius, items[1].dis]
    requires Inside(range, range.radius, items[0].dis) && Inside(range, range.radius, items[1].dis)
    ensures KeptUnder(range, items, bounds, 0) == [] && KeptUnder(range, items, bounds, 1) == [items[0]]
    ensures KeptUnder(range, items, bounds, 2) == [items[0], items[1]] == items == InRange(range, items, 2)
  {
    assert KeptUnder(range, items, bounds, 0) == [] == InRange(range, items, 0);
    assert KeptUnder(range, items, bounds, 1) == [items[0]] == InRange(range, items, 1);
  }

  lemma IsLawful(range: Range, k: int, items: seq<Entry>, bounds: seq<real>, i: nat, kept: seq<Entry>)
    requires i <= |items| && i < |bounds| && kept == KeptUnder(range, items, bounds, i)
    requires BoundLaw(range, k, kept, bounds[i]) && (i > 0 ==> !Better(range.order, bounds[i - 1], bounds[i]))
    ensures Lawful(range, k, items, bounds, i)
  {
  }

  lemma TwoResults(range: Range, items: seq<Entry>, bounds: seq<real>)
    requires |items| == 2 && bounds == [range.radius, range.radius, items[1].dis]
    requires Inside(range, range.radius, items[0].dis) && Inside(range, range.radius, items[1].dis)
    ensures IsTrace(range, 1, items, bounds, 2)
  {
    TwoKept(range, items, bounds);
    SecondIsBound(range, items[0], items[1]);
    IsLawful(range, 1, items, bounds, 0, []);
    IsLawful(range, 1, items, bounds, 1, [items[0]]);
    IsLawful(range, 1, items, bounds, 2, items);
  }

  /** The bound does lag when the second result is further. */
  lemma BoundMayLag(range: Range)
    requires range.order == KeepSmallest && range.radius > 2.0 && range.closer.None?
    ensures var items, bounds := [Entry(1.0, 0), Entry(2.0, 1)], [range.radius, range.radius, 2.0];
            && IsTrace(range, 1, items, bounds, 2) && KeptUnder(range, items, bounds, 2) == items
            && !IsKth(range.order, 1, multiset(items), bounds[2])
  {
    var items, bounds := [Entry(1.0, 0), Entry(2.0, 1)], [range.radius, range.radius, 2.0];
    TwoResults(range, items, bounds);
    TwoKept(range, items, bounds);
    assert items[..1] == [items[0]] && items[1..] == [items[1]];
    BoundIsKthIff(range, 1, items, bounds, 2, items[0]);
  }

  /** `e` is a result, or a limit is set and as many results are no further than `e`. */
  ghost predicate Accounted(order: Order, k: int, kept: seq<Entry>, e: Entry) {
    e in kept || 0 < k <= CountNoFurther(order, kept, e.dis)
  }

  /** No consumed candidate in range is lost for nothing. */
  lemma AllAccounted(range: Range, k: int, items: seq<Entry>, bounds: seq<real>, n: nat, i: nat)
    requires IsTrace(range, k, items, bounds, n) && i < n && Inside(range, range.radius, items[i].dis)
    ensures k != 0 ==> Accounted(range.order, k, KeptUnder(range, items, bounds, n), items[i])
  {
    if Inside(range, bounds[i], items[i].dis) {
      KeptUnderGrows(range, items, bounds, i + 1, n);
      var before, after := KeptUnder(range, items, bounds, i + 1), KeptUnder(range, items, bounds, n);
      assert items[i] == before[|before| - 1] == after[|before| - 1];
    } else if k > 0 {
      TurnedAwayHaveK(range, k, items, bounds, n, i);
    } else {
      assert Lawful(range, k, items, bounds, i);
    }
  }

  /** The task for an iterator in no particular order. Every consumed candidate in range is a result or has `k`
      results no further than it; without a limit the results are all of them, in order. */
  method UnorderedTask(range: Range, k: int, level: real, items: seq<Entry>) returns (kept: seq<Entry>, consumed: nat)
    requires k != 0 && 0.0 <= level <= 0.5
    ensures consumed <= |items| && exists bounds :: UnorderedResult(range, k, level, items, bounds, consumed, kept)
    ensures forall i :: 0 <= i < consumed && Inside(range, range.radius, items[i].dis) ==>
              Accounted(range.order, k, kept, items[i])
    ensures k < 0 ==> kept == InRange(range, items, consumed)
  {
    ghost var bounds;
    kept, consumed, bounds := ScanUnordered(range, k, level, items);
    forall i | 0 <= i < consumed && Inside(range, range.radius, items[i].dis)
      ensures Accounted(range.order, k, kept, items[i])
    {
      AllAccounted(range, k, items, bounds, consumed, i);
    }
    if k < 0 {
      UnlimitedKeepsAll(range, k, items, bounds, consumed, consumed);
    }
  }
}
