/** `BitsetView`: a filter over public ids, queried with backend ids. */
module BitsetViews {
  import opened Bits
  import opened WordScan
  import opened FilterCount

  class BitsetView {
    /** `None` is a null pointer. */
    var bits: Option<seq<Byte>>
    var numBits: nat
    /** Backend vectors the view covers. */
    var vectorCount: nat
    /** How many of them are filtered, when known. */
    var filteredCount: Option<nat>
    var idOffset: nat
    /** Backend id to public id; in use when the count is not zero. */
    var outIds: seq<int>
    var outIdsCount: nat

    /** The buffers are as long as announced. */
    predicate Sized()
      reads this
    {
      (bits.Some? ==> ByteSize(numBits) <= |bits.value|) && outIdsCount <= |outIds|
    }

    /** The view can be tested: it has no bits, or they are there. */
    predicate Valid()
      reads this
    {
      Sized() && (numBits > 0 ==> bits.Some?)
    }

    constructor (bits: Option<seq<Byte>>, numBits: nat, filteredCount: Option<nat>)
      requires bits.Some? ==> ByteSize(numBits) <= |bits.value|
      ensures Sized() && this.bits == bits && this.numBits == numBits && vectorCount == numBits
      ensures this.filteredCount == filteredCount && idOffset == 0 && outIdsCount == 0
    {
      this.bits, this.numBits, vectorCount, this.filteredCount := bits, numBits, numBits, filteredCount;
      idOffset, outIds, outIdsCount := 0, [], 0;
    }

    /** Refuses a count that the ids do not cover. */
    method SetOutIds(ids: seq<int>, count: nat) returns (ok: bool)
      requires Sized()
      modifies this`outIds, this`outIdsCount
      ensures Sized() && (ok <==> count <= |ids|)
      ensures ok ==> outIds == ids && outIdsCount == count
      ensures !ok ==> outIds == old(outIds) && outIdsCount == old(outIdsCount)
    {
      ok := count <= |ids|;
      if ok {
        outIds, outIdsCount := ids, count;
      }
    }

    predicate HasIdBoundaryFilter()
      reads this
    {
      vectorCount != 0 &&
      if outIdsCount != 0 then outIdsCount < vectorCount
      else idOffset >= numBits || vectorCount > numBits - idOffset
    }

    predicate Empty()
      reads this
    {
      numBits == 0 || (filteredCount == Some(0) && !HasIdBoundaryFilter())
    }

    /** Whether the public id `p` is filtered: its bit is set, or it has none. */
    predicate Filtered(p: nat)
      requires Valid()
      reads this
    {
      p >= numBits || BitAt(bits.value, p)
    }

    /** Whether the backend id `index` should be skipped. */
    predicate Test(index: int)
      requires Valid()
      reads this
    {
      if index < 0 then true
      else if outIdsCount == 0 then Filtered(index + idOffset)
      else if index + idOffset >= outIdsCount then true
      else if outIds[index + idOffset] < 0 then true
      else Filtered(outIds[index + idOffset])
    }

    /** Recomputes the two counters over the public ids `[bitOffset, bitOffset + bitCount)` that the
        bitset covers, counting only valid ids when a validity bitmap is given. */
    method CountFilteredBits(bitOffset: nat, bitCount: nat, valid: Option<seq<Byte>>)
      requires Sized()
      requires valid.Some? && Counts(bitOffset, bitCount) ==> ByteSize(Covered(bitOffset, bitCount)) <= |valid.value|
      modifies this`vectorCount, this`filteredCount
      ensures Sized() && (Valid() <==> old(Valid()))
      ensures !Counts(bitOffset, bitCount) ==> vectorCount == 0 && filteredCount == Some(0)
      ensures Counts(bitOffset, bitCount) ==>
                var end := Covered(bitOffset, bitCount);
                && vectorCount == Pop(ValidBits(valid, end)[bitOffset..])
                && filteredCount == Some(Pop(FilteredBits(bits.value, valid, end)[bitOffset..]))
      ensures Counts(bitOffset, bitCount) ==>
                && vectorCount == |WindowIds(numBits, bitOffset, bitCount, valid)|
                && filteredCount == Some(|WindowFiltered(bits.value, numBits, bitOffset, bitCount, valid)|)
    {
      if bits.None? || numBits == 0 || bitCount == 0 || bitOffset >= numBits {
        vectorCount, filteredCount := 0, Some(0);
        return;
      }
      var vectors, filtered := CountWindow(bits.value, valid, bitOffset, Covered(bitOffset, bitCount));
      WindowCounts(bits.value, numBits, bitOffset, bitCount, valid, Covered(bitOffset, bitCount));
      vectorCount, filteredCount := vectors, Some(filtered);
    }

    /** There is something to count in the window. */
    predicate Counts(bitOffset: nat, bitCount: nat)
      reads this
    {
      bits.Some? && bitCount != 0 && bitOffset < numBits
    }

    /** Where the window of `bitCount` bits from `bitOffset` ends inside the bitset. */
    function Covered(bitOffset: nat, bitCount: nat): nat
      reads this
    {
      if bitOffset >= numBits then numBits
      else if bitCount < numBits - bitOffset then bitOffset + bitCount
      else numBits
    }

    ghost predicate AllFiltered(from: nat, to: nat)
      requires Valid()
      reads this
    {
      forall i :: from <= i < to ==> Test(i)
    }

    /** Without an id map, the backend range is a window of the public bits. */
    lemma WindowIsFiltered(from: nat, to: nat)
      requires Valid() && outIdsCount == 0 && bits.Some?
      requires to + idOffset <= numBits
      ensures AllSet(bits.value, from + idOffset, to + idOffset) <==> AllFiltered(from, to)
    {
      if AllFiltered(from, to) {
        forall p | from + idOffset <= p < to + idOffset ensures BitAt(bits.value, p) {
          assert Test(p - idOffset);
        }
      }
    }

    /** Whether every backend id of `[from, to)` is filtered. */
    method RangeAllFiltered(from: nat, to: nat) returns (r: bool)
      requires Valid() && from <= to <= vectorCount
      ensures r <==> AllFiltered(from, to)
    {
      if from == to {
        return true;
      }
      if outIdsCount != 0 {
        for index := from to to
          invariant AllFiltered(from, index)
        {
          if !Test(index) {
            return false;
          }
        }
        return true;
      }
      var lo := from + idOffset;
      var hi := if to + idOffset < numBits then to + idOffset else numBits;
      if hi <= lo {
        return true;
      }
      r := AllBitsSet(bits.value, numBits, lo, hi);
      WindowIsFiltered(from, hi - idOffset);
    }

    /** The greatest unfiltered backend id below `upper`. A view that is taken for empty answers without
        looking; a mapped view does not look beyond its size. */
    method PreviousValidIndex(upper: nat) returns (r: Option<nat>)
      requires Valid()
      ensures numBits > 0 && CountIsRight(this) && !OffsetPastMap(this) && upper <= vectorCount ==>
                match r
                case Some(i) => i < upper && !Test(i) && AllFiltered(i + 1, upper)
                case None => AllFiltered(0, upper)
      ensures Empty() ==> r == if upper == 0 then None else Some(upper - 1)
      ensures !Empty() ==>
                var bound := if outIdsCount != 0 && vectorCount < upper then vectorCount else upper;
                match r
                case Some(i) => i < bound && !Test(i) && AllFiltered(i + 1, bound)
                case None => AllFiltered(0, bound)
    {
      if upper == 0 {
        return None;
      }
      if Empty() {
        if numBits > 0 && CountIsRight(this) && !OffsetPastMap(this) {
          EmptyIsUnfiltered(this);
        }
        return Some(upper - 1);
      }
      if outIdsCount != 0 {
        var bound := if vectorCount < upper then vectorCount else upper;
        var index: nat := bound;
        while index > 0
          invariant index <= bound && AllFiltered(index, bound)
        {
          index := index - 1;
          if !Test(index) {
            return Some(index);
          }
        }
        return None;
      }
      r := PreviousInWindow(upper);
    }

    method PreviousInWindow(upper: nat) returns (r: Option<nat>)
      requires Valid() && outIdsCount == 0
      ensures match r
              case Some(i) => i < upper && !Test(i) && AllFiltered(i + 1, upper)
              case None => AllFiltered(0, upper)
    {
      var low := idOffset;
      var hi := if idOffset + upper < numBits then idOffset + upper else numBits;
      if hi <= low {
        return None;
      }
      var found := HighestClear(bits.value, numBits, low, hi);
      if found.Some? {
        r := Some(found.value - idOffset);
        WindowIsFiltered(r.value + 1, hi - idOffset);
      } else {
        r := None;
        WindowIsFiltered(0, hi - idOffset);
      }
    }

    /** The least unfiltered backend id below the size, or the size. */
    method GetFirstValidIndex() returns (r: nat)
      requires Valid()
      ensures r <= vectorCount && AllFiltered(0, r)
      ensures r < vectorCount ==> !Test(r)
    {
      if outIdsCount != 0 {
        for i := 0 to vectorCount
          invariant AllFiltered(0, i)
        {
          if !Test(i) {
            return i;
          }
        }
        return vectorCount;
      }
      var begin := if idOffset < numBits then idOffset else numBits;
      var count := if vectorCount < numBits - begin then vectorCount else numBits - begin;
      if count == 0 {
        return vectorCount;
      }
      var found := LowestClear(bits.value, numBits, begin, begin + count);
      if found.Some? {
        r := found.value - idOffset;
        WindowIsFiltered(0, r);
      } else {
        r := vectorCount;
        WindowIsFiltered(0, count);
      }
    }
  }

  /** Bit `p` of a packed bitmap is there and set. */
  ghost predicate IsSet(bytes: seq<Byte>, p: nat) {
    p / 8 < |bytes| && BitAt(bytes, p)
  }

  /** Public id `p` lies in the window and in a bitset of `numBits`, and is valid where validity is given. */
  ghost predicate InWindow(p: nat, numBits: nat, bitOffset: nat, bitCount: nat, valid: Option<seq<Byte>>) {
    bitOffset <= p < bitOffset + bitCount && p < numBits && (valid.Some? ==> IsSet(valid.value, p))
  }

  /** The public ids to count. */
  ghost function WindowIds(numBits: nat, bitOffset: nat, bitCount: nat, valid: Option<seq<Byte>>): set<nat> {
    set p: nat | p < numBits && InWindow(p, numBits, bitOffset, bitCount, valid)
  }

  /** Those of them that are filtered. */
  ghost function WindowFiltered(data: seq<Byte>, numBits: nat, bitOffset: nat, bitCount: nat,
                                valid: Option<seq<Byte>>): set<nat> {
    set p: nat | p < numBits && InWindow(p, numBits, bitOffset, bitCount, valid) && IsSet(data, p)
  }

  lemma OnesAreIds(data: seq<Byte>, numBits: nat, bitOffset: nat, bitCount: nat, valid: Option<seq<Byte>>, end: nat)
    requires ByteSize(end) <= |data| && (valid.Some? ==> ByteSize(end) <= |valid.value|)
    requires bitOffset <= end == if bitOffset + bitCount < numBits then bitOffset + bitCount else numBits
    ensures Ones(ValidBits(valid, end), bitOffset, end) == WindowIds(numBits, bitOffset, bitCount, valid)
    ensures Ones(FilteredBits(data, valid, end), bitOffset, end)
         == WindowFiltered(data, numBits, bitOffset, bitCount, valid)
  {
    forall p: nat | bitOffset <= p < end
      ensures ValidBits(valid, end)[p] == InWindow(p, numBits, bitOffset, bitCount, valid)
      ensures FilteredBits(data, valid, end)[p] == (ValidBits(valid, end)[p] && IsSet(data, p))
    {
      assert p / 8 < ByteSize(end);
    }
  }

  /** The population counts are the numbers of these ids. */
  lemma WindowCounts(data: seq<Byte>, numBits: nat, bitOffset: nat, bitCount: nat, valid: Option<seq<Byte>>, end: nat)
    requires ByteSize(end) <= |data| && (valid.Some? ==> ByteSize(end) <= |valid.value|)
    requires bitOffset <= end == if bitOffset + bitCount < numBits then bitOffset + bitCount else numBits
    ensures Pop(ValidBits(valid, end)[bitOffset..]) == |WindowIds(numBits, bitOffset, bitCount, valid)|
    ensures Pop(FilteredBits(data, valid, end)[bitOffset..])
         == |WindowFiltered(data, numBits, bitOffset, bitCount, valid)|
  {
    var v, f := ValidBits(valid, end), FilteredBits(data, valid, end);
    PopIsOnes(v, bitOffset, end);
    PopIsOnes(f, bitOffset, end);
    assert v[bitOffset..end] == v[bitOffset..] && f[bitOffset..end] == f[bitOffset..];
    OnesAreIds(data, numBits, bitOffset, bitCount, valid, end);
  }

  /** The public id of backend id `i` is `p`. */
  ghost predicate IsPublicId(view: BitsetView, i: int, p: nat)
    requires view.Valid()
    reads view
  {
    i >= 0 && if view.outIdsCount == 0 then p == i + view.idOffset
              else i + view.idOffset < view.outIdsCount && view.outIds[i + view.idOffset] == p
  }

  /** An id passes exactly when it has a public id whose bit is there and clear. */
  lemma UnfilteredIff(view: BitsetView, i: int)
    requires view.Valid()
    ensures !view.Test(i) <==> exists p: nat :: IsPublicId(view, i, p) && p < view.numBits && !IsSet(view.bits.value, p)
  {
    if !view.Test(i) {
      var p: nat := if view.outIdsCount == 0 then i + view.idOffset else view.outIds[i + view.idOffset];
      assert IsPublicId(view, i, p);
    }
  }

  // ---- when a view is taken for one that filters nothing -----------------------------------------

  /** How many of the first `n` backend ids the view filters. */
  ghost function CountTested(view: BitsetView, n: nat): nat
    requires view.Valid()
    reads view
  {
    if n == 0 then 0 else CountTested(view, n - 1) + if view.Test(n - 1) then 1 else 0
  }

  lemma {:induction false} NoneTested(view: BitsetView, n: nat)
    requires view.Valid()
    ensures CountTested(view, n) == 0 <==> forall i :: 0 <= i < n ==> !view.Test(i)
  {
    if n > 0 {
      NoneTested(view, n - 1);
    }
  }

  /** How many of the ids of the view have a place in the id map, or without one in the bitset. */
  ghost function Reach(view: BitsetView): nat
    reads view
  {
    var places := if view.outIdsCount != 0 then view.outIdsCount else view.numBits;
    if view.idOffset >= places then 0
    else if view.vectorCount < places - view.idOffset then view.vectorCount
    else places - view.idOffset
  }

  /** A view with an id map and an offset whose ids run past the end of the map only because of the offset. */
  ghost predicate OffsetPastMap(view: BitsetView)
    reads view
  {
    0 < view.vectorCount <= view.outIdsCount < view.vectorCount + view.idOffset
  }

  /** With a known and correct count, `empty` holds exactly when no id of the view is filtered, ids without a
      place included; it is wrong exactly for a count of 0 when the offset pushes ids past the end of the map. */
  lemma EmptyIffUnfiltered(view: BitsetView)
    requires view.Valid() && view.numBits > 0
    requires view.filteredCount == Some(CountTested(view, Reach(view)))
    ensures (view.Empty() <==> forall i :: 0 <= i < view.vectorCount ==> !view.Test(i)) <==>
            !(view.filteredCount == Some(0) && OffsetPastMap(view))
  {
    NoneTested(view, Reach(view));
    if Reach(view) < view.vectorCount {
      assert view.Test(view.vectorCount - 1);
    }
  }

  /** The count is not known, or it is the number of ids with a place that are filtered. */
  ghost predicate CountIsRight(view: BitsetView)
    requires view.Valid()
    reads view
  {
    view.filteredCount.None? || view.filteredCount.value == CountTested(view, Reach(view))
  }

  /** A view whose count is unknown or correct is taken for empty only if it filters nothing, unless an offset
      pushes ids past the end of the map; without a count it is never taken for empty. */
  lemma EmptyIsUnfiltered(view: BitsetView)
    requires view.Valid() && view.numBits > 0 && CountIsRight(view) && !OffsetPastMap(view) && view.Empty()
    ensures view.filteredCount.Some? && forall i :: 0 <= i < view.vectorCount ==> !view.Test(i)
  {
    EmptyIffUnfiltered(view);
  }

  /** An offset into a mapped view is the view of the ids from there on; an offset past them filters everything. */
  lemma OffsetIsSlice(view: BitsetView, sliced: BitsetView, index: int)
    requires view.Valid() && sliced.Valid() && view.bits == sliced.bits && view.numBits == sliced.numBits
    requires 0 < view.outIdsCount && sliced.idOffset == 0
    requires view.idOffset < view.outIdsCount ==>
               sliced.outIds == view.outIds[view.idOffset..] && sliced.outIdsCount == view.outIdsCount - view.idOffset
    ensures view.idOffset < view.outIdsCount ==> (view.Test(index) <==> sliced.Test(index))
    ensures view.idOffset >= view.outIdsCount ==> view.Test(index)
  {
  }

  /** One word of the downward scan: `atTop` and `atBottom` say which ends of the window it holds. */
  method HighestInWord(data: seq<Byte>, count: nat, w: nat, a: nat, b: nat, atTop: bool, atBottom: bool)
    returns (r: Option<nat>)
    requires ByteSize(count) <= |data| && a <= b <= 64 && 64 * w + b <= count
    requires (!atTop ==> b == 64) && (!atBottom ==> a == 0)
    ensures match r
            case Some(k) => a <= k < b && !BitAt(data, 64 * w + k) && AllSet(data, 64 * w + k + 1, 64 * w + b)
            case None => AllSet(data, 64 * w + a, 64 * w + b)
  {
    var word := LoadWordChecked(data, ByteSize(count), w);
    var valid := Narrowed(word, a, b, atBottom, atTop);
    NarrowedIsClearBits(data, count, w, a, b, atBottom, atTop);
    r := HighestSetBit(valid);
    if r.None? {
      NoClearBits(data, count, w, a, b);
    } else {
      ClearBitsAbove(data, count, w, a, b, r.value);
    }
  }

  /** The word loop of `previous_valid_index`, from the top word down. */
  method HighestClear(data: seq<Byte>, count: nat, low: nat, hi: nat) returns (r: Option<nat>)
    requires ByteSize(count) <= |data| && low < hi <= count
    ensures match r
            case Some(p) => low <= p < hi && !BitAt(data, p) && AllSet(data, p + 1, hi)
            case None => AllSet(data, low, hi)
  {
    var lowWord, a := low / 64, low % 64;
    var w: nat, b: nat := (hi - 1) / 64, (hi - 1) % 64 + 1;
    var atTop := true;
    while true
      invariant lowWord <= w && b <= 64 && low < 64 * w + b <= hi && (!atTop ==> b == 64)
      invariant AllSet(data, 64 * w + b, hi)
      decreases w
    {
      var found := HighestInWord(data, count, w, if w == lowWord then a else 0, b, atTop, w == lowWord);
      if found.Some? {
        return Some(64 * w + found.value);
      }
      if w == lowWord {
        return None;
      }
      w, b, atTop := w - 1, 64, false;
    }
  }

  /** One word of the upward scan. */
  method LowestInWord(data: seq<Byte>, count: nat, w: nat, a: nat, b: nat, atBottom: bool, atTop: bool)
    returns (r: Option<nat>)
    requires ByteSize(count) <= |data| && a <= b <= 64 && 64 * w + b <= count
    requires (!atTop ==> b == 64) && (!atBottom ==> a == 0)
    ensures match r
            case Some(k) => a <= k < b && !BitAt(data, 64 * w + k) && AllSet(data, 64 * w + a, 64 * w + k)
            case None => AllSet(data, 64 * w + a, 64 * w + b)
  {
    var word := LoadWordChecked(data, ByteSize(count), w);
    var value := Narrowed(word, a, b, atBottom, atTop);
    NarrowedIsClearBits(data, count, w, a, b, atBottom, atTop);
    r := LowestSetBit(value);
    if r.None? {
      NoClearBits(data, count, w, a, b);
    } else {
      ClearBitsBelow(data, count, w, a, b, r.value);
    }
  }

  /** The word loop of `get_first_valid_index`, from the bottom word up. */
  method LowestClear(data: seq<Byte>, count: nat, low: nat, hi: nat) returns (r: Option<nat>)
    requires ByteSize(count) <= |data| && low < hi <= count
    ensures match r
            case Some(p) => low <= p < hi && !BitAt(data, p) && AllSet(data, low, p)
            case None => AllSet(data, low, hi)
  {
    var first, last := low / 64, (hi - 1) / 64;
    var w, a := first, low % 64;
    assert 64 * w + a == low && 64 * last < hi <= 64 * last + 64;
    while w < last
      invariant first <= w <= last && a < 64 && low <= 64 * w + a < hi && (w != first ==> a == 0)
      invariant AllSet(data, low, 64 * w + a)
    {
      var found := LowestInWord(data, count, w, a, 64, w == first, false);
      if found.Some? {
        return Some(64 * w + found.value);
      }
      w, a := w + 1, 0;
    }
    var b := (hi - 1) % 64 + 1;
    assert 64 * last + b == hi;
    var found := LowestInWord(data, count, last, a, b, w == first, true);
    r := if found.Some? then Some(64 * last + found.value) else None;
  }
}
