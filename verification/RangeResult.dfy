/** Range results: filtering one query's list in place, and flattening all lists behind offsets. */
module RangeResults {
  import opened Bits
  import opened ResultHeaps
  import opened RangeSearches

  function Zip(distances: seq<real>, labels: seq<int>): (r: seq<Entry>)
    requires |distances| == |labels|
    ensures |r| == |labels|
  {
    seq(|labels|, i requires 0 <= i < |labels| => Entry(distances[i], labels[i]))
  }

  function Distances(entries: seq<Entry>): (r: seq<real>)
    ensures |r| == |entries|
  {
    seq(|entries|, i requires 0 <= i < |entries| => entries[i].dis)
  }

  function Labels(entries: seq<Entry>): (r: seq<int>)
    ensures |r| == |entries|
  {
    seq(|entries|, i requires 0 <= i < |entries| => entries[i].id)
  }

  // ---- one query ---------------------------------------------------------------------------------

  predicate DistanceInRange(dist: real, radius: real, rangeFilter: real, isIp: bool) {
    (isIp && radius < dist <= rangeFilter) || (!isIp && rangeFilter <= dist < radius)
  }

  function OrderOf(isIp: bool): Order {
    if isIp then KeepLargest else KeepSmallest
  }

  /** The filter on finished lists and the test of the iterator tasks are the same. */
  lemma RangeTestsAgree(dist: real, radius: real, rangeFilter: real, isIp: bool)
    ensures DistanceInRange(dist, radius, rangeFilter, isIp) <==>
            Inside(Range(OrderOf(isIp), radius, Some(rangeFilter)), radius, dist)
  {
  }

  /** Moves the entries in range to the front of both vectors, in order, and gives their new size; refuses
      vectors of different sizes. */
  method FilterOneQuery(distances: array<real>, labels: array<int>, isIp: bool, radius: real, rangeFilter: real)
    returns (r: Option<nat>)
    modifies distances, labels
    ensures r.None? <==> distances.Length != labels.Length
    ensures r.None? ==> distances[..] == old(distances[..]) && labels[..] == old(labels[..])
    ensures r.Some? ==> r.value <= labels.Length
    ensures r.Some? ==>
              var range := Range(OrderOf(isIp), radius, Some(rangeFilter));
              Zip(distances[..r.value], labels[..r.value]) ==
              InRange(range, Zip(old(distances[..]), old(labels[..])), labels.Length)
  {
    if distances.Length != labels.Length {
      return None;
    }
    ghost var was := Zip(distances[..], labels[..]);
    ghost var range := Range(OrderOf(isIp), radius, Some(rangeFilter));
    var valid: nat, i: nat := 0, 0;
    while i < labels.Length
      invariant valid <= i <= labels.Length
      invariant forall j :: i <= j < labels.Length ==> was[j] == Entry(distances[j], labels[j])
      invariant InRange(range, was, i) == Zip(distances[..valid], labels[..valid])
    {
      var dist, id := distances[i], labels[i];
      if DistanceInRange(dist, radius, rangeFilter, isIp) {
        ghost var d, l := distances[..valid], labels[..valid];
        distances[valid], labels[valid] := dist, id;
        valid := valid + 1;
        assert distances[..valid] == d + [dist] && labels[..valid] == l + [id];
        assert Zip(d + [dist], l + [id]) == Zip(d, l) + [Entry(dist, id)];
      }
      i := i + 1;
    }
    r := Some(valid);
  }

  // ---- all queries -------------------------------------------------------------------------------

  /** The lists of all queries in one array; query `i` owns `lims[i] .. lims[i + 1]`. Without any result
      there are no arrays. */
  datatype RangeSearchResult =
    RangeSearchResult(distances: Option<seq<real>>, labels: Option<seq<int>>, lims: seq<nat>)

  /** The first `n` lists one after the other. */
  function Joined<T>(lists: seq<seq<T>>, n: nat): (r: seq<T>)
    requires n <= |lists|
  {
    if n == 0 then [] else Joined(lists, n - 1) + lists[n - 1]
  }

  lemma {:induction false} JoinedGrows<T>(lists: seq<seq<T>>, n: nat, m: nat)
    requires n <= m <= |lists|
    ensures Joined(lists, n) <= Joined(lists, m)
    decreases m
  {
    if n < m {
      JoinedGrows(lists, n, m - 1);
    }
  }

  /** The offsets of a list cut it out of the joined lists unchanged. */
  lemma SliceIsList<T>(lists: seq<seq<T>>, i: nat)
    requires i < |lists|
    ensures |Joined(lists, i)| <= |Joined(lists, i + 1)| <= |Joined(lists, |lists|)|
    ensures Joined(lists, |lists|)[|Joined(lists, i)|..|Joined(lists, i + 1)|] == lists[i]
  {
    JoinedGrows(lists, i + 1, |lists|);
    var all, upTo := Joined(lists, |lists|), Joined(lists, i + 1);
    assert all[..|upTo|] == upTo;
    assert upTo[|Joined(lists, i)|..] == lists[i];
    assert all[|Joined(lists, i)|..|upTo|] == upTo[|Joined(lists, i)|..];
  }

  ghost predicate SameShape(distances: seq<seq<real>>, labels: seq<seq<int>>) {
    |distances| == |labels| && forall i :: 0 <= i < |labels| ==> |distances[i]| == |labels[i]|
  }

  lemma {:induction false} SameOffsets(distances: seq<seq<real>>, labels: seq<seq<int>>, n: nat)
    requires SameShape(distances, labels) && n <= |labels|
    ensures |Joined(distances, n)| == |Joined(labels, n)|
  {
    if n > 0 {
      SameOffsets(distances, labels, n - 1);
    }
  }

  method CopyTo<T>(target: array<T>, at: nat, source: seq<T>)
    requires at + |source| <= target.Length
    modifies target
    ensures target[..] == old(target[..at]) + source + old(target[at + |source|..])
  {
    var i: nat := 0;
    while i < |source|
      invariant i <= |source|
      invariant forall j :: 0 <= j < i ==> target[at + j] == source[j]
      invariant forall j :: 0 <= j < target.Length && !(at <= j < at + i) ==> target[j] == old(target[j])
    {
      target[at + i] := source[i];
      i := i + 1;
    }
  }

  /** Every list of `lists` in one new array. */
  method Concatenate<T(0)>(lists: seq<seq<T>>, lims: seq<nat>) returns (r: seq<T>)
    requires AreOffsets(lists, lims)
    ensures r == Joined(lists, |lists|)
  {
    var flat := new T[lims[|lists|]];
    var i: nat := 0;
    while i < |lists|
      invariant i <= |lists| && flat.Length == lims[|lists|] && lims[i] <= flat.Length
      invariant flat[..lims[i]] == Joined(lists, i)
    {
      SliceIsList(lists, i);
      ghost var was := flat[..lims[i]];
      CopyTo(flat, lims[i], lists[i]);
      assert flat[..lims[i + 1]] == was + lists[i];
      i := i + 1;
    }
    r := flat[..];
  }

  ghost predicate IsFlat(r: RangeSearchResult, distances: seq<seq<real>>, labels: seq<seq<int>>) {
    && |r.lims| == |labels| + 1 && r.lims[0] == 0
    && |distances| == |labels|
    && r.distances.Some? == r.labels.Some? == (r.lims[|labels|] > 0)
    && (r.distances.Some? ==> |r.distances.value| == |r.labels.value| == r.lims[|labels|])
    && forall i :: 0 <= i < |labels| ==> Cut(r, i, distances[i], labels[i])
  }

  /** The offsets of query `i` cut out these two lists. */
  ghost predicate Cut(r: RangeSearchResult, i: nat, distances: seq<real>, labels: seq<int>)
    requires i + 1 < |r.lims|
  {
    && r.lims[i] <= r.lims[i + 1] && r.lims[i + 1] - r.lims[i] == |labels| == |distances|
    && (r.distances.Some? ==>
          r.lims[i + 1] <= |r.distances.value| && r.distances.value[r.lims[i]..r.lims[i + 1]] == distances)
    && (r.labels.Some? ==> r.lims[i + 1] <= |r.labels.value| && r.labels.value[r.lims[i]..r.lims[i + 1]] == labels)
  }

  ghost predicate AreOffsets<T>(lists: seq<seq<T>>, lims: seq<nat>) {
    |lims| == |lists| + 1 && forall i :: 0 <= i <= |lists| ==> lims[i] == |Joined(lists, i)|
  }

  /** The running sum of the sizes. */
  method Offsets<T>(lists: seq<seq<T>>) returns (lims: seq<nat>)
    ensures AreOffsets(lists, lims)
  {
    lims := [0];
    var i: nat := 0;
    while i < |lists|
      invariant i <= |lists| && |lims| == i + 1
      invariant forall j :: 0 <= j <= i ==> lims[j] == |Joined(lists, j)|
    {
      lims := lims + [lims[i] + |lists[i]|];
      i := i + 1;
    }
  }

  lemma OffsetsOfBoth(distances: seq<seq<real>>, labels: seq<seq<int>>, lims: seq<nat>)
    requires SameShape(distances, labels) && AreOffsets(distances, lims)
    ensures AreOffsets(labels, lims)
  {
    forall j | 0 <= j <= |labels| ensures lims[j] == |Joined(labels, j)| {
      SameOffsets(distances, labels, j);
    }
  }

  lemma CutsOut(r: RangeSearchResult, i: nat, distances: seq<seq<real>>, labels: seq<seq<int>>)
    requires SameShape(distances, labels) && AreOffsets(distances, r.lims) && AreOffsets(labels, r.lims)
    requires r.distances.Some? ==> r.distances.value == Joined(distances, |distances|)
    requires r.labels.Some? ==> r.labels.value == Joined(labels, |labels|)
    requires i < |labels|
    ensures Cut(r, i, distances[i], labels[i])
  {
    SliceIsList(distances, i);
    SliceIsList(labels, i);
  }

  /** Flattens the lists of `nq` queries; refuses a number of lists other than `nq`. */
  method GetRangeSearchResult(distances: seq<seq<real>>, labels: seq<seq<int>>, nq: int)
    returns (r: Option<RangeSearchResult>)
    requires |distances| == nq && |labels| == nq ==> SameShape(distances, labels)
    ensures r.Some? <==> |distances| == nq && |labels| == nq
    ensures r.Some? ==> IsFlat(r.value, distances, labels)
  {
    if |distances| != nq || |labels| != nq {
      return None;
    }
    var lims := Offsets(distances);
    OffsetsOfBoth(distances, labels, lims);
    var flat := RangeSearchResult(None, None, lims);
    if lims[nq] != 0 {
      var flatDistances := Concatenate(distances, lims);
      var flatLabels := Concatenate(labels, lims);
      flat := RangeSearchResult(Some(flatDistances), Some(flatLabels), lims);
    }
    forall i | 0 <= i < nq ensures Cut(flat, i, distances[i], labels[i]) {
      CutsOut(flat, i, distances, labels);
    }
    r := Some(flat);
  }

  /** What one query may return. */
  ghost predicate QueryResult(range: Range, k: int, level: real, ordered: bool, items: seq<Entry>, result: seq<Entry>) {
    if k == 0 then result == []
    else if ordered then
      && (exists n :: StopsAt(range, k, items, n) && result == InRange(range, items, n))
      && (BestFirst(range.order, items) ==> result == FirstK(InRange(range, items, |items|), k))
    else exists bounds, n :: UnorderedResult(range, k, level, items, bounds, n, result)
  }

  method SearchOne(range: Range, k: int, level: real, ordered: bool, items: seq<Entry>) returns (result: seq<Entry>)
    requires k != 0 && 0.0 <= level <= 0.5
    ensures QueryResult(range, k, level, ordered, items, result)
  {
    if ordered {
      var consumed;
      result, consumed := OrderedTask(range, k, items);
    } else {
      var consumed;
      result, consumed := UnorderedTask(range, k, level, items);
    }
  }

  /** Entry `at` of the flattened arrays is this one: its distance and its label. */
  ghost predicate EntryAt(r: RangeSearchResult, at: nat, e: Entry) {
    && r.distances.Some? && at < |r.distances.value| && r.distances.value[at] == e.dis
    && r.labels.Some? && at < |r.labels.value| && r.labels.value[at] == e.id
  }

  /** The offsets of query `i` hold these entries, in order. */
  ghost predicate Shows(r: RangeSearchResult, i: nat, result: seq<Entry>)
    requires i + 1 < |r.lims|
  {
    && r.lims[i] + |result| == r.lims[i + 1]
    && forall j :: 0 <= j < |result| ==> EntryAt(r, r.lims[i] + j, result[j])
  }

  lemma {:induction false} LimsAscend(r: RangeSearchResult, distances: seq<seq<real>>, labels: seq<seq<int>>, i: nat)
    requires IsFlat(r, distances, labels) && i <= |labels|
    ensures r.lims[i] <= r.lims[|labels|]
    decreases |labels| - i
  {
    if i < |labels| {
      assert Cut(r, i, distances[i], labels[i]);
      LimsAscend(r, distances, labels, i + 1);
    }
  }

  lemma CutShows(r: RangeSearchResult, distances: seq<seq<real>>, labels: seq<seq<int>>, i: nat, result: seq<Entry>)
    requires IsFlat(r, distances, labels) && i < |labels|
    requires distances[i] == Distances(result) && labels[i] == Labels(result)
    ensures Shows(r, i, result)
  {
    assert Cut(r, i, distances[i], labels[i]);
    LimsAscend(r, distances, labels, i + 1);
    forall j | 0 <= j < |result| ensures EntryAt(r, r.lims[i] + j, result[j]) {
      assert r.distances.value[r.lims[i]..r.lims[i + 1]][j] == distances[i][j];
      assert r.labels.value[r.lims[i]..r.lims[i + 1]][j] == labels[i][j];
    }
  }

  /** Query `i` of the flattened result is a result that its candidates allow. */
  ghost predicate Answers(r: RangeSearchResult, i: nat, range: Range, k: int, level: real, ordered: bool,
                          items: seq<Entry>)
    requires i + 1 < |r.lims|
  {
    exists result :: Shows(r, i, result) && QueryResult(range, k, level, ordered, items, result)
  }

  /** Range search over the candidates of every query. */
  method RangeSearch(range: Range, k: int, level: real, ordered: bool, candidates: seq<seq<Entry>>)
    returns (r: RangeSearchResult)
    requires 0.0 <= level <= 0.5
    ensures |r.lims| == |candidates| + 1 && r.lims[0] == 0
    ensures forall i :: 0 <= i < |candidates| ==> Answers(r, i, range, k, level, ordered, candidates[i])
  {
    var distances: seq<seq<real>>, labels: seq<seq<int>> := [], [];
    ghost var results: seq<seq<Entry>> := [];
    var i: nat := 0;
    while i < |candidates|
      invariant i <= |candidates| && |distances| == |labels| == |results| == i
      invariant forall j :: 0 <= j < i ==> distances[j] == Distances(results[j]) && labels[j] == Labels(results[j])
      invariant forall j :: 0 <= j < i ==> QueryResult(range, k, level, ordered, candidates[j], results[j])
    {
      var result := [];
      if k != 0 {
        result := SearchOne(range, k, level, ordered, candidates[i]);
      }
      distances, labels, results := distances + [Distances(result)], labels + [Labels(result)], results + [result];
      i := i + 1;
    }
    var flat := GetRangeSearchResult(distances, labels, |candidates|);
    r := flat.value;
    forall j | 0 <= j < |candidates| ensures Answers(r, j, range, k, level, ordered, candidates[j]) {
      CutShows(r, distances, labels, j, results[j]);
    }
  }
}
