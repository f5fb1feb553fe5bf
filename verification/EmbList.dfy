/** Embedding lists: which list a base vector belongs to, looked up from the list offsets or stored
    per vector. */
module EmbLists {
  import opened Bits
  import opened Chunks
  import opened ArrayStores
  import opened AdaptiveStores
  import Spec = IdMapSpec

  // ---- EmbListOffset -----------------------------------------------------------------

  datatype OffsetError = NoOffsets | NoLists | NotFromZero | WrongEnd | Decreasing

  ghost predicate Nondecreasing(offsets: seq<nat>) {
    forall e, f :: 0 <= e <= f < |offsets| ==> offsets[e] <= offsets[f]
  }

  /** Offsets of `|offsets| - 1` consecutive, possibly empty, lists. */
  ghost predicate ValidOffsets(offsets: seq<nat>) {
    |offsets| > 1 && offsets[0] == 0 && Nondecreasing(offsets)
  }

  /** What is wrong with the offsets, the first in this order. */
  ghost function OffsetsError(limits: Option<seq<nat>>, rows: nat, lists: nat): (r: Option<OffsetError>)
    requires limits.Some? ==> |limits.value| == lists + 1
    ensures r.None? <==> limits.Some? && ValidOffsets(limits.value) && limits.value[lists] == rows
  {
    if limits.None? then Some(NoOffsets)
    else if lists == 0 then Some(NoLists)
    else if limits.value[0] != 0 then Some(NotFromZero)
    else if limits.value[lists] != rows then Some(WrongEnd)
    else if Nondecreasing(limits.value) then None
    else Some(Decreasing)
  }

  /** The validating constructor. */
  method CheckOffsets(limits: Option<seq<nat>>, rows: nat, lists: nat) returns (error: Option<OffsetError>)
    requires limits.Some? ==> |limits.value| == lists + 1
    ensures error == OffsetsError(limits, rows, lists)
    ensures error.None? <==> limits.Some? && ValidOffsets(limits.value) && limits.value[lists] == rows
  {
    if limits.None? {
      return Some(NoOffsets);
    }
    var lims := limits.value;
    if lists == 0 {
      return Some(NoLists);
    }
    if lims[0] != 0 {
      return Some(NotFromZero);
    }
    if lims[lists] != rows {
      return Some(WrongEnd);
    }
    for i := 1 to |lims|
      invariant Nondecreasing(lims[..i])
    {
      if lims[i] < lims[i - 1] {
        return Some(Decreasing);
      }
    }
    assert lims[..|lims|] == lims;
    return None;
  }

  /** `std::upper_bound`: the first index whose offset lies beyond `v`, by binary search. */
  method UpperBound(offsets: seq<nat>, v: nat) returns (index: nat)
    requires Nondecreasing(offsets)
    ensures index <= |offsets|
    ensures forall e :: 0 <= e < index ==> offsets[e] <= v
    ensures forall e :: index <= e < |offsets| ==> v < offsets[e]
  {
    var lo, hi := 0, |offsets|;
    while lo < hi
      invariant 0 <= lo <= hi <= |offsets|
      invariant forall e :: 0 <= e < lo ==> offsets[e] <= v
      invariant forall e :: hi <= e < |offsets| ==> v < offsets[e]
    {
      var mid := lo + (hi - lo) / 2;
      if offsets[mid] <= v {
        lo := mid + 1;
      } else {
        hi := mid;
      }
    }
    index := lo;
  }

  /** Vector `v` lies in list `e`. */
  predicate InList(offsets: seq<nat>, e: nat, v: nat)
    requires e + 1 < |offsets|
  {
    offsets[e] <= v < offsets[e + 1]
  }

  /** `get_el_id`: the one list that holds the vector, empty lists being passed over. */
  method GetElId(offsets: seq<nat>, v: nat) returns (e: nat)
    requires ValidOffsets(offsets) && v < offsets[|offsets| - 1]
    ensures e + 1 < |offsets| && InList(offsets, e, v)
    ensures forall f :: 0 <= f < |offsets| - 1 && InList(offsets, f, v) ==> f == e
  {
    var index := UpperBound(offsets, v);
    e := index - 1;
  }

  method GetElLen(offsets: seq<nat>, e: nat) returns (n: nat)
    requires ValidOffsets(offsets) && e < |offsets| - 1
    ensures offsets[e] + n == offsets[e + 1]
  {
    n := offsets[e + 1] - offsets[e];
  }

  /** `get_vids`: the vectors of list `e`, each of which `get_el_id` sends back to `e`. */
  method GetVids(offsets: seq<nat>, e: nat) returns (vids: seq<nat>)
    requires ValidOffsets(offsets) && e < |offsets| - 1
    ensures forall v: nat :: v in vids <==> InList(offsets, e, v)
    ensures |vids| == offsets[e + 1] - offsets[e]
    ensures forall k :: 0 <= k < |vids| ==> vids[k] == offsets[e] + k
  {
    vids := [];
    while |vids| < offsets[e + 1] - offsets[e]
      invariant |vids| <= offsets[e + 1] - offsets[e]
      invariant forall k :: 0 <= k < |vids| ==> vids[k] == offsets[e] + k
    {
      vids := vids + [offsets[e] + |vids|];
    }
    forall v: nat | InList(offsets, e, v) ensures v in vids {
      assert vids[v - offsets[e]] == v;
    }
  }

  // ---- the vector-to-list ids of an id map ----------------------------------------------

  /** The list-level id map at the time of a call: in-to-out ids and how many of them are published.
      No ids means that list ids are public ids. */
  datatype ListMapData = ListMap(inToOut: seq<int>, inCount: nat)

  /** What is published is stored. */
  type ListMap = m: ListMapData | m.inToOut != [] ==> m.inCount <= |m.inToOut| witness ListMap([], 0)

  datatype EblError =
    NullOffsets | NegativeBegin | InconsistentOffsets | ListIdOverflow | ListIdExceedsMap | NotStored

  predicate HasListOut(m: ListMap, list: nat) {
    if m.inToOut == [] then list <= INT32_MAX else list < m.inCount
  }

  /** `ListOutId`. */
  function ListOut(m: ListMap, list: nat): int
    requires HasListOut(m, list)
  {
    if m.inToOut == [] then list else m.inToOut[list]
  }

  /** A list has an id exactly when the id map can say which, and it is what the map says. */
  lemma ListOutIsLookup(s: Spec.MapState, list: nat)
    requires s.inToOut != [] ==> s.validCount <= |s.inToOut|
    ensures var m: ListMap := ListMap(s.inToOut, s.validCount);
            if HasListOut(m, list) then ListOut(m, list) == Spec.MapInToOut(s, list)
            else Spec.MapInToOut(s, list) == INVALID || (s.inToOut == [] && list > INT32_MAX)
  {
  }

  function Repeat(x: int, n: nat): (r: seq<int>)
    ensures |r| == n
  {
    seq(n, _ => x)
  }

  ghost predicate Rises(offsets: seq<nat>, e: nat)
    requires e + 1 < |offsets|
  {
    offsets[e] <= offsets[e + 1]
  }

  /** The offsets never go down over the first `n` lists. */
  ghost predicate Ascending(offsets: seq<nat>, n: nat)
    requires n < |offsets|
  {
    forall e :: 0 <= e < n ==> Rises(offsets, e)
  }

  /** Every list of `[lo, hi)` has a public id. */
  ghost predicate AllHaveOut(m: ListMap, lo: nat, hi: nat) {
    forall list :: lo <= list < hi ==> HasListOut(m, list)
  }

  /** The public list id of every base vector of the first `n` lists, `begin` being the id of the
      first list; vectors before the first list have none. */
  ghost function VectorListIds(m: ListMap, offsets: seq<nat>, begin: nat, n: nat): (r: seq<int>)
    requires n < |offsets| && Ascending(offsets, n) && AllHaveOut(m, begin, begin + n)
    ensures |r| == offsets[n]
  {
    if n == 0 then Repeat(INVALID, offsets[0])
    else
      assert Rises(offsets, n - 1);
      VectorListIds(m, offsets, begin, n - 1) + Repeat(ListOut(m, begin + n - 1), offsets[n] - offsets[n - 1])
  }

  /** What is wrong with list `e`, its offsets first. */
  function ListError(m: ListMap, offsets: seq<nat>, begin: nat, e: nat): Option<EblError>
    requires e + 1 < |offsets|
  {
    if offsets[e + 1] < offsets[e] || offsets[e + 1] > offsets[|offsets| - 1] then Some(InconsistentOffsets)
    else if HasListOut(m, begin + e) then None
    else if m.inToOut == [] then Some(ListIdOverflow)
    else Some(ListIdExceedsMap)
  }

  /** List `e` keeps within the offsets and has a public id. */
  ghost predicate GoodList(m: ListMap, offsets: seq<nat>, begin: nat, e: nat)
    requires e + 1 < |offsets|
  {
    offsets[e] <= offsets[e + 1] <= offsets[|offsets| - 1] && HasListOut(m, begin + e)
  }

  /** List `e` is bad for the reason `error`. */
  ghost predicate BadList(m: ListMap, offsets: seq<nat>, begin: nat, e: nat, error: EblError)
    requires e + 1 < |offsets|
  {
    match error
    case InconsistentOffsets => !(offsets[e] <= offsets[e + 1] <= offsets[|offsets| - 1])
    case ListIdOverflow => m.inToOut == [] && begin + e > INT32_MAX
    case ListIdExceedsMap => m.inToOut != [] && begin + e >= m.inCount
    case _ => false
  }

  lemma ListErrorSays(m: ListMap, offsets: seq<nat>, begin: nat, e: nat)
    requires e + 1 < |offsets|
    ensures match ListError(m, offsets, begin, e)
            case None => GoodList(m, offsets, begin, e)
            case Some(error) => BadList(m, offsets, begin, e, error)
  {
  }

  /** `error` is that of the first bad list. */
  ghost predicate IsFirstError(m: ListMap, offsets: seq<nat>, begin: nat, error: Option<EblError>)
    requires |offsets| > 0
  {
    if error.None? then forall e :: 0 <= e < |offsets| - 1 ==> GoodList(m, offsets, begin, e)
    else exists e :: 0 <= e < |offsets| - 1 && BadList(m, offsets, begin, e, error.value) &&
                     forall f :: 0 <= f < e ==> GoodList(m, offsets, begin, f)
  }

  /** The common loop of `FinalizeEmbListIds` (`begin` zero) and `AppendEmbListIds`: it fills each
      list's range of vectors with the list's public id. */
  method FillListIds(m: ListMap, offsets: seq<nat>, begin: nat) returns (error: Option<EblError>, ids: seq<int>)
    requires |offsets| > 1
    ensures error.None? <==> Ascending(offsets, |offsets| - 1) && AllHaveOut(m, begin, begin + |offsets| - 1)
    ensures error.None? ==> ids == VectorListIds(m, offsets, begin, |offsets| - 1)
    ensures IsFirstError(m, offsets, begin, error)
  {
    var lists := |offsets| - 1;
    var count := offsets[lists];
    var filled := new int[count](_ => INVALID);
    ids := [];
    for e := 0 to lists
      invariant Ascending(offsets, e) && AllHaveOut(m, begin, begin + e)
      invariant forall f :: 0 <= f < e ==> GoodList(m, offsets, begin, f)
      invariant e == 0 ==> forall k :: 0 <= k < count ==> filled[k] == INVALID
      invariant e > 0 ==> offsets[e] <= count && filled[..offsets[e]] == VectorListIds(m, offsets, begin, e)
    {
      error := ListError(m, offsets, begin, e);
      ListErrorSays(m, offsets, begin, e);
      if offsets[e + 1] < offsets[e] || offsets[e + 1] > count {
        NotAscending(offsets, e);
        return;
      }
      if !HasListOut(m, begin + e) {
        return;
      }
      assert Rises(offsets, e);
      assert filled[..offsets[e]] == VectorListIds(m, offsets, begin, e);
      Fill(filled, offsets[e], offsets[e + 1], ListOut(m, begin + e));
      assert filled[..offsets[e + 1]] == filled[..offsets[e]] + filled[offsets[e]..offsets[e + 1]];
    }
    ids := filled[..];
    assert filled[..count] == filled[..];
    error := None;
  }

  /** `std::fill`. */
  method Fill(a: array<int>, lo: nat, hi: nat, x: int)
    requires lo <= hi <= a.Length
    modifies a
    ensures a[..lo] == old(a[..lo]) && a[hi..] == old(a[hi..])
    ensures a[lo..hi] == Repeat(x, hi - lo)
  {
    for k := lo to hi
      invariant forall j :: 0 <= j < a.Length ==> a[j] == if lo <= j < k then x else old(a[j])
    {
      a[k] := x;
    }
  }

  /** An offset that goes down, or beyond the last one, breaks the order somewhere. */
  lemma NotAscending(offsets: seq<nat>, e: nat)
    requires e + 1 < |offsets|
    requires offsets[e + 1] < offsets[e] || offsets[e + 1] > offsets[|offsets| - 1]
    ensures !Ascending(offsets, |offsets| - 1)
  {
    if Ascending(offsets, |offsets| - 1) {
      AscendingChain(offsets, e, e + 1);
      AscendingChain(offsets, e + 1, |offsets| - 1);
    }
  }

  lemma {:induction false} AscendingChain(offsets: seq<nat>, e: nat, f: nat)
    requires e <= f < |offsets| && Ascending(offsets, f)
    ensures offsets[e] <= offsets[f]
  {
    if e < f {
      AscendingChain(offsets, e, f - 1);
      assert Rises(offsets, f - 1);
    }
  }

  // ---- stored ids against lookup ----------------------------------------------------------

  lemma {:induction false} VectorListIdsAt(m: ListMap, offsets: seq<nat>, begin: nat, n: nat, e: nat, v: nat)
    requires n < |offsets| && Ascending(offsets, n) && AllHaveOut(m, begin, begin + n)
    requires e < n && InList(offsets, e, v)
    ensures v < offsets[n] && VectorListIds(m, offsets, begin, n)[v] == ListOut(m, begin + e)
  {
    AscendingChain(offsets, e + 1, n);
    if e < n - 1 {
      VectorListIdsAt(m, offsets, begin, n - 1, e, v);
    }
  }

  /** For valid offsets with arbitrary empty lists, the stored id of every base vector is the public
      id of the list that `get_el_id` finds for it. */
  method LookupMatchesStored(m: ListMap, offsets: seq<nat>, v: nat) returns (e: nat, o: int)
    requires ValidOffsets(offsets) && AllHaveOut(m, 0, |offsets| - 1) && v < offsets[|offsets| - 1]
    ensures e < |offsets| - 1 && InList(offsets, e, v) && o == ListOut(m, e)
    ensures o == VectorListIds(m, offsets, 0, |offsets| - 1)[v]
  {
    e := GetElId(offsets, v);
    VectorListIdsAt(m, offsets, 0, |offsets| - 1, e, v);
    o := ListOut(m, e);
  }

  // ---- appending batches against building once ----------------------------------------------

  function Shift(offsets: seq<nat>, amount: nat): (r: seq<nat>)
    ensures |r| == |offsets|
  {
    seq(|offsets|, k requires 0 <= k < |offsets| => offsets[k] + amount)
  }

  /** The offsets of the lists of `a` followed by those of `b`. */
  function JoinOffsets(a: seq<nat>, b: seq<nat>): (r: seq<nat>)
    requires |a| > 0 && |b| > 0
    ensures |r| == |a| + |b| - 1
  {
    a + Shift(b[1..], a[|a| - 1])
  }

  lemma JoinOffsetsAt(a: seq<nat>, b: seq<nat>, k: nat)
    requires |a| > 0 && k < |b| && b[0] == 0
    ensures JoinOffsets(a, b)[|a| - 1 + k] == a[|a| - 1] + b[k]
  {
  }

  lemma {:induction false} JoinAscends(a: seq<nat>, b: seq<nat>, k: nat)
    requires |a| > 0 && k < |b| && b[0] == 0 && Ascending(a, |a| - 1) && Ascending(b, k)
    ensures Ascending(JoinOffsets(a, b), |a| - 1 + k)
  {
    var joined := JoinOffsets(a, b);
    forall e | 0 <= e < |a| - 1 + k ensures Rises(joined, e) {
      if e < |a| - 1 {
        assert Rises(a, e);
      } else {
        assert Rises(b, e - (|a| - 1));
        JoinOffsetsAt(a, b, e - (|a| - 1));
        JoinOffsetsAt(a, b, e + 1 - (|a| - 1));
      }
    }
  }

  lemma {:induction false} PrefixLists(m: ListMap, a: seq<nat>, b: seq<nat>, begin: nat, k: nat)
    requires a <= b && k < |a| && Ascending(a, k) && Ascending(b, k) && AllHaveOut(m, begin, begin + k)
    ensures VectorListIds(m, a, begin, k) == VectorListIds(m, b, begin, k)
  {
    if k > 0 {
      PrefixLists(m, a, b, begin, k - 1);
    }
  }

  /** Lists `b` appended after lists `a` are numbered on from them. */
  lemma {:induction false} JoinedLists(m: ListMap, a: seq<nat>, b: seq<nat>, begin: nat, k: nat)
    requires |a| > 0 && k < |b| && b[0] == 0
    requires Ascending(a, |a| - 1) && Ascending(b, k) && AllHaveOut(m, begin, begin + |a| - 1 + k)
    ensures Ascending(JoinOffsets(a, b), |a| - 1 + k)
    ensures VectorListIds(m, JoinOffsets(a, b), begin, |a| - 1 + k)
         == VectorListIds(m, a, begin, |a| - 1) + VectorListIds(m, b, begin + |a| - 1, k)
  {
    JoinAscends(a, b, k);
    if k == 0 {
      PrefixLists(m, a, JoinOffsets(a, b), begin, |a| - 1);
    } else {
      JoinedLists(m, a, b, begin, k - 1);
      JoinOffsetsAt(a, b, k);
      JoinOffsetsAt(a, b, k - 1);
    }
  }

  // ---- which lists must keep their ids ---------------------------------------------------------

  lemma ConcatEqual(a: seq<int>, b: seq<int>, c: seq<int>, d: seq<int>)
    requires |a| == |c|
    ensures a + b == c + d <==> a == c && b == d
  {
    if a + b == c + d {
      assert a == (a + b)[..|a|] == (c + d)[..|a|] == c;
      assert b == (a + b)[|a|..] == (c + d)[|a|..] == d;
    }
  }

  lemma RepeatEqual(x: int, y: int, n: nat)
    ensures Repeat(x, n) == Repeat(y, n) <==> n == 0 || x == y
  {
    if n > 0 && x != y {
      assert Repeat(x, n)[0] != Repeat(y, n)[0];
    }
  }

  /** List `e` is empty, or both maps give it the same public id. */
  ghost predicate KeepsId(m: ListMap, n: ListMap, offsets: seq<nat>, begin: nat, e: nat)
    requires e + 1 < |offsets| && HasListOut(m, begin + e) && HasListOut(n, begin + e)
  {
    offsets[e] == offsets[e + 1] || ListOut(m, begin + e) == ListOut(n, begin + e)
  }

  ghost predicate KeepsIds(m: ListMap, n: ListMap, offsets: seq<nat>, begin: nat, k: nat)
    requires k < |offsets| && AllHaveOut(m, begin, begin + k) && AllHaveOut(n, begin, begin + k)
  {
    forall e :: 0 <= e < k ==> KeepsId(m, n, offsets, begin, e)
  }

  /** Two maps give the vectors the same ids exactly when every non-empty list keeps its id. */
  lemma {:induction false} SameIdsIff(m: ListMap, n: ListMap, offsets: seq<nat>, begin: nat, k: nat)
    requires k < |offsets| && Ascending(offsets, k)
    requires AllHaveOut(m, begin, begin + k) && AllHaveOut(n, begin, begin + k)
    ensures VectorListIds(m, offsets, begin, k) == VectorListIds(n, offsets, begin, k)
       <==> KeepsIds(m, n, offsets, begin, k)
  {
    if k > 0 {
      SameIdsIff(m, n, offsets, begin, k - 1);
      assert Rises(offsets, k - 1);
      var length := offsets[k] - offsets[k - 1];
      var x, y := ListOut(m, begin + k - 1), ListOut(n, begin + k - 1);
      RepeatEqual(x, y, length);
      ConcatEqual(VectorListIds(m, offsets, begin, k - 1), Repeat(x, length),
                  VectorListIds(n, offsets, begin, k - 1), Repeat(y, length));
      assert KeepsId(m, n, offsets, begin, k - 1) <==> length == 0 || x == y;
    }
  }

  /** One growing batch: local offsets from zero, and the map when it was appended. */
  datatype BatchData = BatchData(offsets: seq<nat>, m: ListMap)

  type EblBatch = b: BatchData | |b.offsets| > 0 && b.offsets[0] == 0 witness BatchData([0], ListMap([], 0))

  ghost function AllOffsets(batches: seq<EblBatch>): (r: seq<nat>)
    ensures |r| > 0
  {
    if |batches| == 0 then [0]
    else JoinOffsets(AllOffsets(batches[..|batches| - 1]), batches[|batches| - 1].offsets)
  }

  /** The batch is accepted when its first list is list `begin`. */
  ghost predicate AcceptedAt(b: EblBatch, begin: nat) {
    Ascending(b.offsets, |b.offsets| - 1) && AllHaveOut(b.m, begin, begin + |b.offsets| - 1)
  }

  /** Every append is accepted. */
  ghost predicate Accepted(batches: seq<EblBatch>) {
    |batches| > 0 ==>
      var front := batches[..|batches| - 1];
      Accepted(front) && AcceptedAt(batches[|batches| - 1], |AllOffsets(front)| - 1)
  }

  /** The stored ids after the appends, each numbered on from the lists before it. */
  ghost function Appended(batches: seq<EblBatch>): (r: seq<int>)
    requires Accepted(batches)
  {
    if |batches| == 0 then []
    else
      var front, b := batches[..|batches| - 1], batches[|batches| - 1];
      Appended(front) + VectorListIds(b.m, b.offsets, |AllOffsets(front)| - 1, |b.offsets| - 1)
  }

  lemma JoinedEnd(a: seq<nat>, b: seq<nat>, joined: seq<nat>)
    requires |a| > 0 && |b| > 0 && b[0] == 0 && joined == JoinOffsets(a, b)
    requires Ascending(a, |a| - 1) && Ascending(b, |b| - 1)
    ensures Ascending(joined, |joined| - 1) && joined[|joined| - 1] == a[|a| - 1] + b[|b| - 1]
  {
    JoinAscends(a, b, |b| - 1);
    JoinOffsetsAt(a, b, |b| - 1);
  }

  lemma {:induction false} OffsetsAscend(batches: seq<EblBatch>)
    requires Accepted(batches)
    ensures Ascending(AllOffsets(batches), |AllOffsets(batches)| - 1)
  {
    if |batches| > 0 {
      var front, b := batches[..|batches| - 1], batches[|batches| - 1];
      OffsetsAscend(front);
      JoinedEnd(AllOffsets(front), b.offsets, AllOffsets(batches));
    }
  }

  lemma BatchSize(b: EblBatch, begin: nat)
    requires AcceptedAt(b, begin)
    ensures |VectorListIds(b.m, b.offsets, begin, |b.offsets| - 1)| == b.offsets[|b.offsets| - 1]
  {
  }

  lemma {:induction false} AppendedSize(batches: seq<EblBatch>)
    requires Accepted(batches)
    ensures |Appended(batches)| == AllOffsets(batches)[|AllOffsets(batches)| - 1]
  {
    if |batches| > 0 {
      var front, b := batches[..|batches| - 1], batches[|batches| - 1];
      AppendedSize(front);
      OffsetsAscend(front);
      JoinedEnd(AllOffsets(front), b.offsets, AllOffsets(batches));
      BatchSize(b, |AllOffsets(front)| - 1);
    }
  }

  lemma AllAscend(batches: seq<EblBatch>)
    requires Accepted(batches)
    ensures Ascending(AllOffsets(batches), |AllOffsets(batches)| - 1)
    ensures |Appended(batches)| == AllOffsets(batches)[|AllOffsets(batches)| - 1]
  {
    OffsetsAscend(batches);
    AppendedSize(batches);
  }

  /** Every non-empty list of every batch has in `last` the id it got. */
  ghost predicate AllKeepIds(batches: seq<EblBatch>, last: ListMap)
    requires Accepted(batches) && AllHaveOut(last, 0, |AllOffsets(batches)| - 1)
  {
    |batches| > 0 ==>
      var front, b := batches[..|batches| - 1], batches[|batches| - 1];
      && AllKeepIds(front, last)
      && KeepsIds(b.m, last, b.offsets, |AllOffsets(front)| - 1, |b.offsets| - 1)
  }

  /** Extending the stored ids batch by batch, with whatever map there was each time, equals building them once
      from the joined offsets with the last map exactly when every non-empty list keeps its id. */
  lemma {:induction false} AppendedEqualsBuiltOnceIff(batches: seq<EblBatch>, last: ListMap)
    requires Accepted(batches) && AllHaveOut(last, 0, |AllOffsets(batches)| - 1)
    ensures Ascending(AllOffsets(batches), |AllOffsets(batches)| - 1)
    ensures Appended(batches) == VectorListIds(last, AllOffsets(batches), 0, |AllOffsets(batches)| - 1)
       <==> AllKeepIds(batches, last)
  {
    AllAscend(batches);
    if |batches| > 0 {
      var front, b := batches[..|batches| - 1], batches[|batches| - 1];
      var a, joined := AllOffsets(front), AllOffsets(batches);
      AppendedEqualsBuiltOnceIff(front, last);
      AllAscend(front);
      OneMoreBatchIff(Appended(front), a, b.offsets, joined, b.m, last);
    }
  }

  lemma {:induction false} OneMoreBatchIff(stored: seq<int>, a: seq<nat>, b: seq<nat>, joined: seq<nat>,
                                           m: ListMap, last: ListMap)
    requires |a| > 0 && |b| > 0 && b[0] == 0 && |stored| == a[|a| - 1] && joined == JoinOffsets(a, b)
    requires Ascending(a, |a| - 1) && Ascending(b, |b| - 1) && Ascending(joined, |joined| - 1)
    requires AllHaveOut(m, |a| - 1, |a| - 1 + |b| - 1) && AllHaveOut(last, 0, |joined| - 1)
    ensures stored + VectorListIds(m, b, |a| - 1, |b| - 1) == VectorListIds(last, joined, 0, |joined| - 1)
       <==> stored == VectorListIds(last, a, 0, |a| - 1) && KeepsIds(m, last, b, |a| - 1, |b| - 1)
  {
    var n, k := |a| - 1, |b| - 1;
    JoinedLists(last, a, b, 0, k);
    SameIdsIff(m, last, b, n, k);
    ConcatEqual(stored, VectorListIds(m, b, n, k), VectorListIds(last, a, 0, n), VectorListIds(last, b, n, k));
  }

  // ---- maps that grow ---------------------------------------------------------------------------

  /** `n` is `m` grown by more published ids. */
  ghost predicate Grows(m: ListMap, n: ListMap) {
    m.inToOut <= n.inToOut && m.inCount <= n.inCount
  }

  ghost predicate AllGrow(batches: seq<EblBatch>, last: ListMap) {
    forall i :: 0 <= i < |batches| ==> Grows(batches[i].m, last)
  }

  /** When the map grows between batches, a list keeps its id if the map already had ids then. If it
      had none, list ids were taken for public ids, and the list keeps its id exactly when the later
      map has none either or sends it to itself. */
  lemma GrowthKeepsListOut(m: ListMap, n: ListMap, list: nat)
    requires Grows(m, n) && HasListOut(m, list) && HasListOut(n, list)
    ensures ListOut(m, list) == ListOut(n, list) <==> m.inToOut != [] || n.inToOut == [] || n.inToOut[list] == list
  {
  }

  /** If the map had no ids for the batch and has them in `last`, every non-empty list is sent to itself. */
  ghost predicate OwnIds(b: EblBatch, begin: nat, last: ListMap)
    requires AllHaveOut(last, begin, begin + |b.offsets| - 1)
  {
    b.m.inToOut == [] && last.inToOut != [] ==>
      forall e :: 0 <= e < |b.offsets| - 1 && b.offsets[e] != b.offsets[e + 1] ==> ListOut(last, begin + e) == begin + e
  }

  ghost predicate AllOwnIds(batches: seq<EblBatch>, last: ListMap)
    requires AllHaveOut(last, 0, |AllOffsets(batches)| - 1)
  {
    |batches| > 0 ==>
      var front, b := batches[..|batches| - 1], batches[|batches| - 1];
      AllOwnIds(front, last) && OwnIds(b, |AllOffsets(front)| - 1, last)
  }

  lemma GrownKeepsIff(b: EblBatch, begin: nat, last: ListMap)
    requires AcceptedAt(b, begin) && Grows(b.m, last) && AllHaveOut(last, begin, begin + |b.offsets| - 1)
    ensures KeepsIds(b.m, last, b.offsets, begin, |b.offsets| - 1) <==> OwnIds(b, begin, last)
  {
    forall e | 0 <= e < |b.offsets| - 1
      ensures KeepsId(b.m, last, b.offsets, begin, e) <==>
              b.offsets[e] == b.offsets[e + 1] || b.m.inToOut != [] || last.inToOut == [] ||
              ListOut(last, begin + e) == begin + e
    {
      GrowthKeepsListOut(b.m, last, begin + e);
    }
  }

  lemma {:induction false} AllGrownKeepIff(batches: seq<EblBatch>, last: ListMap)
    requires Accepted(batches) && AllGrow(batches, last) && AllHaveOut(last, 0, |AllOffsets(batches)| - 1)
    ensures AllKeepIds(batches, last) <==> AllOwnIds(batches, last)
  {
    if |batches| > 0 {
      var front, b := batches[..|batches| - 1], batches[|batches| - 1];
      AllGrownKeepIff(front, last);
      GrownKeepsIff(b, |AllOffsets(front)| - 1, last);
    }
  }

  /** When the map only grows, the stored ids are those built once exactly when every non-empty list stored
      before the map had ids is sent to itself by the ids it got later. */
  lemma GrownEqualIff(batches: seq<EblBatch>, last: ListMap)
    requires Accepted(batches) && AllGrow(batches, last) && AllHaveOut(last, 0, |AllOffsets(batches)| - 1)
    ensures Ascending(AllOffsets(batches), |AllOffsets(batches)| - 1)
    ensures Appended(batches) == VectorListIds(last, AllOffsets(batches), 0, |AllOffsets(batches)| - 1)
       <==> AllOwnIds(batches, last)
  {
    AppendedEqualsBuiltOnceIff(batches, last);
    AllGrownKeepIff(batches, last);
  }

  /** A map built from validity sends a list to itself exactly when every public id up to it is valid. */
  lemma {:induction false} OwnIdIff(bits: seq<bool>, list: nat)
    requires list < |SetBits(bits, 0)|
    ensures SetBits(bits, 0)[list] == list <==> list < |bits| && forall p :: 0 <= p <= list ==> bits[p]
    decreases |bits|
  {
    var n := |bits| - 1;
    var front := SetBits(bits[..n], 0);
    AllSetIff(bits[..n]);
    if list < |front| {
      OwnIdIff(bits[..n], list);
      assert SetBits(bits, 0)[list] == front[list];
      assert forall p :: 0 <= p <= list ==> bits[p] == bits[..n][p];
    } else {
      assert list == |front| && bits[n];
      if list < n && forall p :: 0 <= p <= list ==> bits[p] {
        SetAtLeast(bits[..n], list + 1);
      }
    }
  }

  /** There are as many set bits as bits exactly when all are set. */
  lemma {:induction false} AllSetIff(bits: seq<bool>)
    ensures |SetBits(bits, 0)| <= |bits|
    ensures |SetBits(bits, 0)| == |bits| <==> forall p :: 0 <= p < |bits| ==> bits[p]
  {
    if |bits| > 0 {
      AllSetIff(bits[..|bits| - 1]);
    }
  }

  lemma {:induction false} SetAtLeast(bits: seq<bool>, k: nat)
    requires k <= |bits| && forall p :: 0 <= p < k ==> bits[p]
    ensures |SetBits(bits, 0)| >= k
  {
    if k < |bits| {
      SetAtLeast(bits[..|bits| - 1], k);
    } else {
      AllSetIff(bits);
    }
  }

  lemma HadIdsKeeps(b: EblBatch, last: ListMap, begin: nat)
    requires AcceptedAt(b, begin) && Grows(b.m, last) && b.m.inToOut != []
    ensures AllHaveOut(last, begin, begin + |b.offsets| - 1)
    ensures KeepsIds(b.m, last, b.offsets, begin, |b.offsets| - 1)
  {
    forall list | begin <= list < begin + |b.offsets| - 1
      ensures HasListOut(last, list) && ListOut(b.m, list) == ListOut(last, list)
    {
      assert HasListOut(b.m, list);
    }
  }

  /** So whenever the map had ids at each batch, growth does no harm: the last map accepts all lists and the
      stored ids are those built once. */
  lemma {:induction false} GrownWithIdsEqual(batches: seq<EblBatch>, last: ListMap)
    requires Accepted(batches) && AllGrow(batches, last)
    requires forall i :: 0 <= i < |batches| ==> batches[i].m.inToOut != []
    ensures AllHaveOut(last, 0, |AllOffsets(batches)| - 1) && Ascending(AllOffsets(batches), |AllOffsets(batches)| - 1)
    ensures Appended(batches) == VectorListIds(last, AllOffsets(batches), 0, |AllOffsets(batches)| - 1)
  {
    GrownWithIdsKeep(batches, last);
    AppendedEqualsBuiltOnceIff(batches, last);
  }

  lemma {:induction false} GrownWithIdsKeep(batches: seq<EblBatch>, last: ListMap)
    requires Accepted(batches) && AllGrow(batches, last)
    requires forall i :: 0 <= i < |batches| ==> batches[i].m.inToOut != []
    ensures AllHaveOut(last, 0, |AllOffsets(batches)| - 1) && AllKeepIds(batches, last)
  {
    if |batches| > 0 {
      var front, b := batches[..|batches| - 1], batches[|batches| - 1];
      GrownWithIdsKeep(front, last);
      HadIdsKeeps(b, last, |AllOffsets(front)| - 1);
      forall list | 0 <= list < |AllOffsets(batches)| - 1 ensures HasListOut(last, list) {
      }
    }
  }

  /** A list of one vector stored before the map had ids, and a map that then publishes id 5 for it. */
  lemma GrownIdsMayDiffer()
    ensures var batch: EblBatch := BatchData([0, 1], ListMap([], 0));
            var last: ListMap := ListMap([5], 1);
            && Accepted([batch]) && AllGrow([batch], last)
            && AllHaveOut(last, 0, |AllOffsets([batch])| - 1)
            && Ascending(AllOffsets([batch]), |AllOffsets([batch])| - 1)
            && Appended([batch]) != VectorListIds(last, AllOffsets([batch]), 0, |AllOffsets([batch])| - 1)
  {
    var batch: EblBatch := BatchData([0, 1], ListMap([], 0));
    var last: ListMap := ListMap([5], 1);
    assert [batch][..0] == [];
    assert Accepted([batch][..0]) && AllOffsets([batch][..0]) == [0];
    assert AllOffsets([batch]) == [0, 1];
    AppendedEqualsBuiltOnceIff([batch], last);
    assert !KeepsId(batch.m, last, batch.offsets, 0, 0);
  }

  // ---- the stored ids ------------------------------------------------------------------------------

  /** What storing the ids of the lists does to the ids stored before, and what it reports: the first list with
      an error, or a store that is not `open` for appends or has no room. */
  ghost predicate StoresLists(m: ListMap, offsets: seq<nat>, begin: nat, append: bool, open: bool,
                              before: seq<int>, after: seq<int>, error: Option<EblError>)
    requires |offsets| > 0
  {
    var count := |offsets| - 1;
    if !Ascending(offsets, count) || !AllHaveOut(m, begin, begin + count) then
      error.Some? && IsFirstError(m, offsets, begin, error) && after == before
    else if append && offsets[count] > 0 && (!open || |before| + offsets[count] > CAPACITY) then
      error == Some(NotStored) && after == before
    else
      error.None? && after == (if append then before else []) + VectorListIds(m, offsets, begin, count)
  }

  /** The vector-to-list ids of an id map. */
  class ListIds {
    const store: ArrayStore<int>
    const growing: bool

    ghost predicate Valid()
      reads store, store.append
    {
      store.Valid() && (growing ==> store.Open())
    }

    constructor (growing: bool)
      ensures Valid() && store.Contents() == [] && this.growing == growing
      ensures fresh(store) && (store.append != null ==> fresh(store.append))
    {
      store := new ArrayStore<int>(0);
      this.growing := growing;
      new;
      if growing {
        store.SetType(Appendable);
      }
    }

    /** `FinalizeEmbListIds`: the ids of all lists, appended to a growing map's and replacing a sealed one's. */
    method Finalize(m: ListMap, offsets: Option<seq<nat>>, count: nat) returns (error: Option<EblError>)
      requires Valid() && (offsets.Some? ==> count < |offsets.value|)
      modifies store, store.append
      ensures Valid()
      ensures count == 0 ==> error.None? && store.Contents() == old(store.Contents())
      ensures count != 0 && offsets.None? ==> error == Some(NullOffsets) && store.Contents() == old(store.Contents())
      ensures count != 0 && offsets.Some? ==>
                StoresLists(m, offsets.value[..count + 1], 0, growing, growing,
                            old(store.Contents()), store.Contents(), error)
    {
      if count == 0 {
        return None;
      }
      if offsets.None? {
        return Some(NullOffsets);
      }
      if growing {
        error := AppendLists(m, offsets.value[..count + 1], 0);
      } else {
        error := SetLists(m, offsets.value[..count + 1]);
      }
    }

    /** `AppendEmbListIds`: the ids of a batch of lists that starts with list `begin`; the store of a sealed map
        refuses them. */
    method Append(m: ListMap, begin: int, offsets: Option<seq<nat>>, count: nat) returns (error: Option<EblError>)
      requires Valid() && (offsets.Some? ==> count < |offsets.value|)
      modifies store.append
      ensures Valid()
      ensures count == 0 ==> error.None? && store.Contents() == old(store.Contents())
      ensures count != 0 && begin < 0 ==> error == Some(NegativeBegin) && store.Contents() == old(store.Contents())
      ensures count != 0 && begin >= 0 && offsets.None? ==>
                error == Some(NullOffsets) && store.Contents() == old(store.Contents())
      ensures count != 0 && begin >= 0 && offsets.Some? ==>
                StoresLists(m, offsets.value[..count + 1], begin, true, store.Open(),
                            old(store.Contents()), store.Contents(), error)
    {
      if count == 0 {
        return None;
      }
      if begin < 0 {
        return Some(NegativeBegin);
      }
      if offsets.None? {
        return Some(NullOffsets);
      }
      error := AppendLists(m, offsets.value[..count + 1], begin);
    }

    method SetLists(m: ListMap, offsets: seq<nat>) returns (error: Option<EblError>)
      requires Valid() && !growing && |offsets| > 1
      modifies store
      ensures Valid()
      ensures StoresLists(m, offsets, 0, false, false, old(store.Contents()), store.Contents(), error)
    {
      var ids;
      error, ids := FillListIds(m, offsets, 0);
      if error.None? {
        store.Set(ids);
      }
    }

    method AppendLists(m: ListMap, offsets: seq<nat>, begin: nat) returns (error: Option<EblError>)
      requires Valid() && |offsets| > 1
      modifies store.append
      ensures Valid()
      ensures StoresLists(m, offsets, begin, true, store.Open(), old(store.Contents()), store.Contents(), error)
    {
      var ids;
      error, ids := FillListIds(m, offsets, begin);
      if error.None? {
        error := AppendIds(ids);
      }
    }

    /** `InToOutIds` in the list domain: a snapshot of all stored ids. */
    method InToOutIds() returns (ids: ArrayStore<int>)
      requires Valid()
      ensures fresh(ids) && ids.Valid() && ids.Contents() == store.Contents()
      ensures ids.append == store.append && ids.kind == store.kind && ids.visible == Some(|ids.Contents()|)
    {
      ids := store.Copy();
    }

    method AppendIds(ids: seq<int>) returns (error: Option<EblError>)
      requires Valid()
      modifies store.append
      ensures Valid()
      ensures error == if |ids| > 0 && (!store.Open() || |old(store.Contents())| + |ids| > CAPACITY)
                       then Some(NotStored) else None
      ensures store.Contents() == old(store.Contents()) + if error.None? then ids else []
    {
      var status := store.Append(ids);
      error := if status.Stored? then None else Some(NotStored);
      assert ids == [] ==> old(store.Contents()) + ids == old(store.Contents());
    }
  }
}
