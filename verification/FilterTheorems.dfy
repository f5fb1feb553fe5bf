/** The counters of a filter agree with its per-id test. */
module FilterTheorems {
  import opened Bits
  import opened FilterCount
  import opened BitsetViews
  import opened IdDomain
  import opened IdMapSpec
  import opened IdMapTheorems

  /** Whether the view filters each of the first `n` public ids. */
  ghost function FilterOf(view: BitsetView, n: nat): (r: seq<bool>)
    requires view.Valid()
    reads view
    ensures |r| == n
  {
    if n == 0 then [] else FilterOf(view, n - 1) + [view.Filtered(n - 1)]
  }

  lemma {:induction false} FilterOfAt(view: BitsetView, n: nat, p: nat)
    requires view.Valid() && p < n
    ensures FilterOf(view, n)[p] == view.Filtered(p)
  {
    if p < n - 1 {
      FilterOfAt(view, n - 1, p);
    }
  }

  /** Testing a backend id through an id map asks whether its public id is filtered. */
  lemma {:induction false} TestedIsSelected(view: BitsetView, ids: seq<int>, domain: nat, n: nat)
    requires view.Valid() && view.idOffset == 0
    requires view.outIds == ids && view.outIdsCount == |ids| && n <= |ids|
    requires forall i :: 0 <= i < n ==> 0 <= ids[i] < domain
    ensures CountTested(view, n) == CountSelected(ids[..n], FilterOf(view, domain), 0)
  {
    if n > 0 {
      TestedIsSelected(view, ids, domain, n - 1);
      assert ids[..n][..n - 1] == ids[..n - 1];
      FilterOfAt(view, domain, ids[n - 1]);
    }
  }

  /** A map whose ids list exactly the valid public ids, as growing and finalized maps do. */
  ghost predicate Listed(s: MapState) {
    s.outCount == |s.bitmap| && s.validCount == |s.inToOut| && Enumerates(s.inToOut, s.bitmap, 0)
  }

  lemma GrownIsListed(inputs: seq<Input>)
    ensures Listed(Grown(inputs))
  {
    var s := Grown(inputs);
    LinkedEnumerates(s.bitmap, s.inToOut, s.outToIn.values);
  }

  /** One publish in any format, and finalization. */
  lemma SealedIsListed(data: Input, t: MapState)
    requires SealedFrom(data, t)
    ensures Listed(t)
  {
    var batch := Parse(SealedMap, 0, data);
    if batch.Accepted? {
      ParseEnumerates(SealedMap, 0, data);
      SetBitsEnumerate(batch.bits, 0);
    }
  }

  /** The view filters the backend ids of `s` through its ids, and `valid` packs the validity of `s`, whatever
      pads it. */
  ghost predicate Filters(view: BitsetView, s: MapState, valid: seq<Byte>)
    reads view
  {
    && view.Valid() && view.bits.Some? && view.idOffset == 0
    && view.outIds == s.inToOut && view.outIdsCount == s.validCount
    && ByteSize(s.outCount) <= |valid| && Unpack(valid, s.outCount) == s.bitmap
  }

  /** How far the bitset covers the public ids of `s`. */
  ghost function End(view: BitsetView, s: MapState): nat
    reads view
  {
    if s.outCount < view.numBits then s.outCount else view.numBits
  }

  lemma UnpackPart(bytes: seq<Byte>, count: nat, end: nat)
    requires ByteSize(count) <= |bytes| && end <= count
    ensures ByteSize(end) <= |bytes| && Unpack(bytes, end) == Unpack(bytes, count)[..end]
  {
    forall k | 0 <= k < end ensures Unpack(bytes, end)[k] == Unpack(bytes, count)[..end][k] {
    }
  }

  lemma {:induction false} NonePop(bits: seq<bool>)
    ensures Pop(bits) == 0 <==> IsZero(bits)
  {
    if IsZero(bits) {
      PopZero(bits);
    } else {
      var k :| 0 <= k < |bits| && bits[k];
      PopClear(bits, k);
    }
  }

  lemma AndOfParts(bits: seq<bool>, filter: seq<bool>, low: seq<bool>, end: nat)
    requires |filter| == |bits| && end == |low| <= |bits|
    requires forall p :: 0 <= p < end ==> low[p] == (bits[p] && filter[p])
    requires forall p :: end <= p < |bits| ==> filter[p]
    ensures And(bits, filter) == low + bits[end..]
  {
  }

  lemma FilteredBitAt(view: BitsetView, s: MapState, valid: seq<Byte>, end: nat, p: nat)
    requires Filters(view, s, valid) && end == End(view, s) && p < end
    ensures ByteSize(end) <= |view.bits.value| && ByteSize(end) <= |valid|
    ensures FilteredBits(view.bits.value, Some(valid), end)[p] == (s.bitmap[p] && view.Filtered(p))
  {
    UnpackPart(valid, s.outCount, end);
  }

  /** Beyond the bitset every public id counts as filtered. */
  lemma MaskedByFilter(view: BitsetView, s: MapState, valid: seq<Byte>, end: nat)
    requires Listed(s) && Filters(view, s, valid) && end == End(view, s)
    ensures ByteSize(end) <= |view.bits.value| && ByteSize(end) <= |valid|
    ensures And(s.bitmap, FilterOf(view, s.outCount))
         == FilteredBits(view.bits.value, Some(valid), end) + s.bitmap[end..]
  {
    var filter, low := FilterOf(view, s.outCount), FilteredBits(view.bits.value, Some(valid), end);
    forall p | 0 <= p < s.outCount ensures filter[p] == view.Filtered(p) {
      FilterOfAt(view, s.outCount, p);
    }
    forall p | 0 <= p < end ensures low[p] == (s.bitmap[p] && filter[p]) {
      FilteredBitAt(view, s, valid, end, p);
    }
    AndOfParts(s.bitmap, filter, low, end);
  }

  /** What `test` filters is what the population counts see and, beyond the bitset, every vector. */
  lemma TestedSplits(view: BitsetView, s: MapState, valid: seq<Byte>)
    requires Listed(s) && Filters(view, s, valid)
    ensures var end := End(view, s);
            && ByteSize(end) <= |view.bits.value| && ByteSize(end) <= |valid|
            && s.validCount == Pop(ValidBits(Some(valid), end)) + Pop(s.bitmap[end..])
            && CountTested(view, s.validCount)
               == Pop(FilteredBits(view.bits.value, Some(valid), end)) + Pop(s.bitmap[end..])
  {
    var end := End(view, s);
    UnpackPart(valid, s.outCount, end);
    EnumerationLength(s.inToOut, s.bitmap, 0);
    PopConcat(s.bitmap[..end], s.bitmap[end..]);
    assert s.bitmap == s.bitmap[..end] + s.bitmap[end..];
    TestedByFilter(view, s);
    MaskedByFilter(view, s, valid, end);
    PopConcat(FilteredBits(view.bits.value, Some(valid), end), s.bitmap[end..]);
  }

  lemma TestedByFilter(view: BitsetView, s: MapState)
    requires Listed(s) && view.Valid() && view.idOffset == 0
    requires view.outIds == s.inToOut && view.outIdsCount == s.validCount
    ensures CountTested(view, s.validCount) == Pop(And(s.bitmap, FilterOf(view, s.outCount)))
  {
    var filter := FilterOf(view, s.outCount);
    CountThroughEnumeration(s.inToOut, s.bitmap, 0, filter);
    forall i | 0 <= i < |s.inToOut| ensures 0 <= s.inToOut[i] < s.outCount {
      assert Hits(s.inToOut, s.bitmap, 0, i);
    }
    TestedIsSelected(view, s.inToOut, s.outCount, s.validCount);
    assert s.inToOut[..s.validCount] == s.inToOut;
  }

  /** Each of the two counters is right exactly when no valid public id lies beyond the bitset. */
  lemma CountersAgreeIff(view: BitsetView, s: MapState, valid: seq<Byte>)
    requires Listed(s) && Filters(view, s, valid)
    ensures var end := End(view, s);
            && ByteSize(end) <= |view.bits.value| && ByteSize(end) <= |valid|
            && (Pop(ValidBits(Some(valid), end)) == s.validCount <==> IsZero(s.bitmap[end..]))
            && (Pop(FilteredBits(view.bits.value, Some(valid), end)) == CountTested(view, s.validCount)
                <==> IsZero(s.bitmap[end..]))
  {
    TestedSplits(view, s, valid);
    NonePop(s.bitmap[End(view, s)..]);
  }

  /** The counters that `count_filtered_bits` leaves over all public ids of a map, with the map's validity: the
      number of backend vectors and the number of them that `test` filters, each exactly when no valid public
      id lies beyond the bitset. */
  method CountThroughMap(view: BitsetView, valid: seq<Byte>, outCount: nat, ghost s: MapState)
    requires Listed(s) && Filters(view, s, valid) && outCount == s.outCount
    modifies view`vectorCount, view`filteredCount
    ensures Filters(view, s, valid)
    ensures view.vectorCount == s.validCount <==> IsZero(s.bitmap[End(view, s)..])
    ensures view.filteredCount == Some(CountTested(view, s.validCount)) <==> IsZero(s.bitmap[End(view, s)..])
  {
    view.CountFilteredBits(0, outCount, Some(valid));
    CountersAgreeIff(view, s, valid);
    ghost var end := End(view, s);
    assert ValidBits(Some(valid), end)[0..] == ValidBits(Some(valid), end);
    ghost var filtered := FilteredBits(view.bits.value, Some(valid), end);
    assert filtered[0..] == filtered;
  }

  /** A bitset of one bit over two valid ids: the second vector is not counted and, though `test` filters it,
      not counted as filtered. */
  lemma UncoveredVectorIsMissed(view: BitsetView, s: MapState, valid: seq<Byte>)
    requires Listed(s) && Filters(view, s, valid) && s.bitmap == [true, true] && view.numBits == 1
    ensures Pop(ValidBits(Some(valid), 1)) != s.validCount
    ensures Pop(FilteredBits(view.bits.value, Some(valid), 1)) != CountTested(view, s.validCount)
  {
    CountersAgreeIff(view, s, valid);
    assert s.bitmap[1..][0];
  }

  // ---- without an id map -------------------------------------------------------------------

  /** Without an id map, the per-id test filters as many ids of a covered range as there are set bits in the
      window of the bitset. */
  lemma {:induction false} ContiguousCountersAgree(view: BitsetView, n: nat)
    requires view.Valid() && view.bits.Some? && view.outIdsCount == 0 && view.idOffset + n <= view.numBits
    ensures CountTested(view, n) == Pop(Unpack(view.bits.value, view.numBits)[view.idOffset..view.idOffset + n])
  {
    var bits, lo := Unpack(view.bits.value, view.numBits), view.idOffset;
    if n > 0 {
      ContiguousCountersAgree(view, n - 1);
      PopOneMore(bits, lo, lo + n - 1);
      assert view.Test(n - 1) == bits[lo + n - 1];
    }
  }

  /** The offset of a mapped view is not looked at: such a view can be called empty although it filters its
      last id. */
  lemma OffsetMappedViewMisleads(view: BitsetView)
    requires view.Valid() && view.bits.Some? && view.numBits == 1 && view.vectorCount == 1 && view.idOffset == 1
    requires view.outIdsCount == 1 && view.filteredCount == Some(0)
    ensures view.Empty() && view.Test(0)
  {
  }
}
