/** The correspondence between public ids and dense backend ids, as a relation between a validity
    bitmap, the list of valid public ids and the inverse table. */
module IdDomain {
  import opened Bits
  import opened AdaptiveStores

  // ---- a list of ids that enumerates the set bits of a bitmap ------------------------

  ghost predicate Hits(ids: seq<int>, bits: seq<bool>, base: nat, i: nat)
    requires i < |ids|
  {
    0 <= ids[i] - base < |bits| && bits[ids[i] - base]
  }

  ghost predicate Covered(ids: seq<int>, bits: seq<bool>, base: nat, k: nat)
    requires k < |bits|
  {
    bits[k] ==> base + k in ids
  }

  /** `ids` lists, in any order and without repetition, `base + k` for each set bit `k`. */
  ghost predicate Enumerates(ids: seq<int>, bits: seq<bool>, base: nat) {
    && (forall i :: 0 <= i < |ids| ==> Hits(ids, bits, base, i))
    && (forall k :: 0 <= k < |bits| ==> Covered(ids, bits, base, k))
    && Distinct(ids, |ids|)
  }

  lemma SetBitsEnumerate(bits: seq<bool>, base: nat)
    ensures Enumerates(SetBits(bits, base), bits, base)
  {
    SetBitsSound(bits, base);
    SetBitsComplete(bits, base);
  }

  /** How many of the ids select a set bit of `filter`. */
  ghost function CountSelected(ids: seq<int>, filter: seq<bool>, base: nat): nat {
    if |ids| == 0 then 0
    else
      var id := ids[|ids| - 1] - base;
      CountSelected(ids[..|ids| - 1], filter, base) + if 0 <= id < |filter| && filter[id] then 1 else 0
  }

  /** Counting through an enumeration is a population count. */
  lemma {:induction false} CountThroughEnumeration(ids: seq<int>, bits: seq<bool>, base: nat, filter: seq<bool>)
    requires Enumerates(ids, bits, base) && |filter| == |bits|
    ensures CountSelected(ids, filter, base) == Pop(And(bits, filter))
    decreases |ids|
  {
    var masked := And(bits, filter);
    if |ids| == 0 {
      forall k | 0 <= k < |bits| ensures !masked[k] {
        assert Covered(ids, bits, base, k);
      }
      PopZero(masked);
    } else {
      var n := |ids| - 1;
      assert Hits(ids, bits, base, n);
      var id := ids[n] - base;
      var rest, front := bits[id := false], ids[..n];
      forall i: nat | i < n ensures Hits(front, rest, base, i) {
        assert Hits(ids, bits, base, i) && Differ(ids, i, n);
      }
      forall v: nat, w: nat | v < w < n ensures Differ(front, v, w) {
        assert Differ(ids, v, w);
      }
      forall k: nat | k < |rest| ensures Covered(front, rest, base, k) {
        assert Covered(ids, bits, base, k);
      }
      CountThroughEnumeration(front, rest, base, filter);
      assert And(rest, filter) == masked[id := false];
      PopClear(masked, id);
    }
  }

  lemma EnumerationLength(ids: seq<int>, bits: seq<bool>, base: nat)
    requires Enumerates(ids, bits, base)
    ensures |ids| == Pop(bits)
  {
    var all := Not(And(bits, Not(bits)));
    CountThroughEnumeration(ids, bits, base, all);
    assert And(bits, all) == bits;
    CountAll(ids, bits, all, base);
  }

  lemma {:induction false} CountAll(ids: seq<int>, bits: seq<bool>, all: seq<bool>, base: nat)
    requires forall i :: 0 <= i < |ids| ==> Hits(ids, bits, base, i)
    requires |all| == |bits| && forall k :: 0 <= k < |all| ==> all[k]
    ensures CountSelected(ids, all, base) == |ids|
  {
    if |ids| > 0 {
      var n := |ids| - 1;
      forall i: nat | i < n ensures Hits(ids[..n], bits, base, i) {
        assert Hits(ids, bits, base, i);
      }
      CountAll(ids[..n], bits, all, base);
      assert Hits(ids, bits, base, n);
    }
  }

  /** Distinct ids of set bits, as many as there are, list them all. */
  lemma {:induction false} HitsEnumerate(ids: seq<int>, bits: seq<bool>)
    requires Distinct(ids, |ids|) && |ids| == Pop(bits)
    requires forall i :: 0 <= i < |ids| ==> Hits(ids, bits, 0, i)
    ensures Enumerates(ids, bits, 0)
  {
    forall k: nat | k < |bits| ensures Covered(ids, bits, 0, k) {
      if bits[k] && k !in ids {
        HitsLeaveOut(ids, bits, k);
      }
    }
  }

  /** Distinct ids of set bits are fewer than the set bits if they leave one out. */
  lemma {:induction false} HitsLeaveOut(ids: seq<int>, bits: seq<bool>, k: nat)
    requires Distinct(ids, |ids|) && k < |bits| && bits[k] && k !in ids
    requires forall i :: 0 <= i < |ids| ==> Hits(ids, bits, 0, i)
    ensures |ids| < Pop(bits)
    decreases |ids|
  {
    if |ids| == 0 {
      PopClear(bits, k);
    } else {
      var n := |ids| - 1;
      assert Hits(ids, bits, 0, n);
      var rest, front := bits[ids[n] := false], ids[..n];
      forall i: nat | i < n ensures Hits(front, rest, 0, i) {
        assert Hits(ids, bits, 0, i) && Differ(ids, i, n);
      }
      forall v: nat, w: nat | v < w < n ensures Differ(front, v, w) {
        assert Differ(ids, v, w);
      }
      HitsLeaveOut(front, rest, k);
      PopClear(bits, ids[n]);
    }
  }

  // ---- the two-way map ---------------------------------------------------------------

  /** Backend id `i` names a valid public id, which leads back to `i`. */
  ghost predicate Forward(bits: seq<bool>, ids: seq<int>, inverse: seq<int>, i: nat)
    requires i < |ids| && |inverse| == |bits|
  {
    0 <= ids[i] < |bits| && bits[ids[i]] && inverse[ids[i]] == i
  }

  /** Public id `o` leads to a backend id and back when it is valid, and nowhere when it is not. */
  ghost predicate Backward(bits: seq<bool>, ids: seq<int>, inverse: seq<int>, o: nat)
    requires o < |bits| && |inverse| == |bits|
  {
    if bits[o] then 0 <= inverse[o] < |ids| && ids[inverse[o]] == o else inverse[o] == INVALID
  }

  ghost predicate Linked(bits: seq<bool>, ids: seq<int>, inverse: seq<int>) {
    && |inverse| == |bits|
    && (forall i :: 0 <= i < |ids| ==> Forward(bits, ids, inverse, i))
    && (forall o :: 0 <= o < |bits| ==> Backward(bits, ids, inverse, o))
  }

  lemma LinkedEnumerates(bits: seq<bool>, ids: seq<int>, inverse: seq<int>)
    requires Linked(bits, ids, inverse)
    ensures Enumerates(ids, bits, 0)
  {
    forall i: nat | i < |ids| ensures Hits(ids, bits, 0, i) {
      assert Forward(bits, ids, inverse, i);
    }
    forall k: nat | k < |bits| ensures Covered(ids, bits, 0, k) {
      assert Backward(bits, ids, inverse, k);
    }
    forall i: nat, j: nat | i < j < |ids| ensures Differ(ids, i, j) {
      assert Forward(bits, ids, inverse, i) && Forward(bits, ids, inverse, j);
    }
  }

  /** Appending one batch of public ids, with the inverse table filled for its key range, keeps the
      two directions inverse to each other. */
  lemma LinkedAppend(bits: seq<bool>, ids: seq<int>, inverse: seq<int>,
                     moreBits: seq<bool>, moreIds: seq<int>, moreInverse: seq<int>)
    requires Linked(bits, ids, inverse)
    requires Enumerates(moreIds, moreBits, |bits|)
    requires |moreInverse| == |moreBits| && DenseInverts(moreInverse, moreIds, |moreIds|, |bits|, |ids|)
    ensures Linked(bits + moreBits, ids + moreIds, inverse + moreInverse)
  {
    var b, s, v := bits + moreBits, ids + moreIds, inverse + moreInverse;
    forall i: nat | i < |s| ensures Forward(b, s, v, i) {
      if i < |ids| {
        assert Forward(bits, ids, inverse, i);
      } else {
        assert Hits(moreIds, moreBits, |bits|, i - |ids|);
        assert Placed(moreInverse, moreIds, |bits|, |ids|, i - |ids|);
      }
    }
    forall o: nat | o < |b| ensures Backward(b, s, v, o) {
      if o < |bits| {
        assert Backward(bits, ids, inverse, o);
      } else {
        BatchBackward(bits, ids, moreBits, moreIds, moreInverse, o - |bits|);
      }
    }
  }

  lemma BatchBackward(bits: seq<bool>, ids: seq<int>, moreBits: seq<bool>, moreIds: seq<int>, moreInverse: seq<int>,
                      k: nat)
    requires Enumerates(moreIds, moreBits, |bits|) && k < |moreBits|
    requires |moreInverse| == |moreBits| && DenseInverts(moreInverse, moreIds, |moreIds|, |bits|, |ids|)
    ensures if moreBits[k]
            then |ids| <= moreInverse[k] < |ids| + |moreIds| && moreIds[moreInverse[k] - |ids|] == |bits| + k
            else moreInverse[k] == INVALID
  {
    assert Backed(moreInverse, moreIds, |moreIds|, |bits|, |ids|, k);
    if moreInverse[k] != INVALID {
      assert Hits(moreIds, moreBits, |bits|, moreInverse[k] - |ids|);
    }
    if moreBits[k] {
      assert Covered(moreIds, moreBits, |bits|, k);
      var i :| 0 <= i < |moreIds| && moreIds[i] == |bits| + k;
      assert Placed(moreInverse, moreIds, |bits|, |ids|, i);
    }
  }

  /** A batch that enumerates its bits is acceptable to the inverse table, so the table cannot refuse
      it: its keys are fresh, in range and distinct, and there are no more of them than ids. */
  lemma BatchAcceptable(moreIds: seq<int>, moreBits: seq<bool>, base: nat, valueBegin: nat)
    requires Enumerates(moreIds, moreBits, base)
    requires valueBegin <= base && base + |moreBits| <= INT32_MAX + 1
    ensures Acceptable(moreIds, |moreIds|, base, base + |moreBits|, valueBegin)
    ensures |moreIds| <= |moreBits|
  {
    EnumerationLength(moreIds, moreBits, base);
    var end := base + |moreBits|;
    forall v | 0 <= v < |moreIds| ensures InRange(moreIds, v, base, end) {
      assert Hits(moreIds, moreBits, base, v);
    }
  }
}
