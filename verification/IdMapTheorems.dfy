/** Properties of id maps over whole runs. */
module IdMapTheorems {
  import opened Bits
  import opened Chunks
  import opened AdaptiveStores
  import opened IdDomain
  import opened IdMapSpec

  // ---- growing maps: the invariant ----------------------------------------------------

  ghost predicate GrowInv(s: MapState) {
    && s.kind.GrowingMap? && s.outToIn.Dense?
    && |s.bitmap| == s.outCount <= MAX_DOMAIN
    && |s.inToOut| == s.validCount
    && Linked(s.bitmap, s.inToOut, s.outToIn.values)
  }

  lemma GrowInvBounds(s: MapState)
    requires GrowInv(s)
    ensures s.validCount == Pop(s.bitmap) <= s.outCount == |s.outToIn.values|
  {
    LinkedEnumerates(s.bitmap, s.inToOut, s.outToIn.values);
    EnumerationLength(s.inToOut, s.bitmap, 0);
  }

  /** A growing map without in-to-out ids has no valid id to derive one from. */
  lemma NothingToDerive(s: MapState)
    requires GrowInv(s) && (s.inToOut == [] || s.outCount == 0)
    ensures s.validCount == 0 && SetBits(s.bitmap, 0) == []
  {
    GrowInvBounds(s);
    SetBitsComplete(s.bitmap, 0);
  }

  /** Once a batch has passed validation, the inverse table cannot refuse it and none of the three
      stores runs out of room. */
  lemma StoresCannotRefuse(s: MapState, batch: Batch)
    requires GrowInv(s) && GoodBatch(batch, s.outCount)
    ensures FillDense(batch.ids, |batch.ids|, s.outCount, s.outCount + |batch.bits|, s.validCount).Filled?
    ensures s.outCount + |batch.bits| <= MAX_DOMAIN < CAPACITY
    ensures s.validCount + |batch.ids| <= s.outCount + |batch.bits|
  {
    RoomFor(s, batch);
    InverseFills(batch, s.outCount, s.validCount);
  }

  lemma RoomFor(s: MapState, batch: Batch)
    requires GrowInv(s) && GoodBatch(batch, s.outCount)
    ensures s.validCount <= s.outCount && s.outCount + |batch.bits| <= MAX_DOMAIN < CAPACITY
    ensures s.validCount + |batch.ids| <= s.outCount + |batch.bits|
  {
    GrowInvBounds(s);
    BatchAcceptable(batch.ids, batch.bits, s.outCount, s.validCount);
  }

  lemma AppendBatchKeepsInv(s: MapState, batch: Batch)
    requires GrowInv(s) && GoodBatch(batch, s.outCount)
    ensures GrowInv(AppendBatch(s, batch))
  {
    StoresCannotRefuse(s, batch);
    FillDenseInverts(batch.ids, |batch.ids|, s.outCount, s.outCount + |batch.bits|, s.validCount);
    LinkedAppend(s.bitmap, s.inToOut, s.outToIn.values,
                 batch.bits, batch.ids, InverseOf(batch, s.outCount, s.validCount));
  }

  /** Every input, accepted or refused, keeps the two directions inverse to each other and leaves what
      was published in place. */
  lemma GrowKeepsInv(s: MapState, data: Input)
    requires GrowInv(s)
    ensures var t := Grow(s, data);
            && GrowInv(t)
            && s.bitmap <= t.bitmap && s.inToOut <= t.inToOut && s.outToIn.values <= t.outToIn.values
  {
    var batch := Parse(s.kind, s.outCount, data);
    if batch.Accepted? {
      ParseEnumerates(s.kind, s.outCount, data);
      AppendBatchKeepsInv(s, batch);
    }
  }

  // ---- what the caller gave is what lookups return -----------------------------------------------

  /** `t` is the growing map `s` after the accepted `IDS` input. */
  ghost predicate GrewByIds(s: MapState, data: Input, t: MapState) {
    GrowInv(s) && data.Ids? && Parse(GrowingMap, s.outCount, data).Accepted? && t == Grow(s, data)
  }

  /** Vector number `i` of the batch is backend id number `i` behind those there were, and names the id that the
      caller gave it, shifted behind the public ids there were. */
  ghost predicate NamesGiven(s: MapState, data: Input, t: MapState, i: nat) {
    && data.Ids? && i < data.inCount && data.outIds.Some?
    && MapInToOut(t, s.validCount + i) == s.outCount + data.outIds.value[i]
    && MapOutToIn(t, s.outCount + data.outIds.value[i]) == s.validCount + i
  }

  /** New public id number `p` is valid if it was given, and leads nowhere if not. */
  ghost predicate ValidIfGiven(s: MapState, data: Input, t: MapState, p: nat) {
    && data.Ids? && (data.inCount > 0 ==> data.outIds.Some?)
    && (IsValidOutId(t, s.outCount + p) <==> p in GivenIds(data))
    && (p !in GivenIds(data) ==> MapOutToIn(t, s.outCount + p) == INVALID)
  }

  /** What the input put into the growing map. */
  ghost predicate HoldsBehind(s: MapState, data: Input, t: MapState) {
    && data.Ids? && (data.inCount > 0 ==> data.outIds.Some?) && GrowInv(t)
    && t.outCount == s.outCount + data.outCount && t.validCount == s.validCount + data.inCount
    && (forall i :: 0 <= i < data.inCount ==> t.inToOut[s.validCount + i] == s.outCount + GivenIds(data)[i])
    && (forall p :: 0 <= p < data.outCount ==> (t.bitmap[s.outCount + p] <==> p in GivenIds(data)))
  }

  lemma GrownHolds(s: MapState, data: Input, t: MapState)
    requires GrewByIds(s, data, t)
    ensures HoldsBehind(s, data, t)
  {
    var batch := Parse(GrowingMap, s.outCount, data);
    ParseIds(GrowingMap, s.outCount, data);
    GrowKeepsInv(s, data);
    assert t.bitmap == s.bitmap + batch.bits && t.inToOut == s.inToOut + batch.ids;
  }

  lemma GrownVector(s: MapState, data: Input, t: MapState, i: nat)
    requires HoldsBehind(s, data, t) && i < data.inCount
    ensures NamesGiven(s, data, t, i)
  {
    GrowInvBounds(t);
    assert GivenIds(data)[i] == data.outIds.value[i];
    assert Forward(t.bitmap, t.inToOut, t.outToIn.values, s.validCount + i);
  }

  lemma GrownPublicId(s: MapState, data: Input, t: MapState, p: nat)
    requires HoldsBehind(s, data, t) && p < data.outCount
    ensures ValidIfGiven(s, data, t, p)
  {
    GrowInvBounds(t);
    assert Backward(t.bitmap, t.inToOut, t.outToIn.values, s.outCount + p);
  }

  /** Growing by an `IDS` input keeps the order in which the caller gave the ids. */
  lemma GrownByIds(s: MapState, data: Input, t: MapState)
    requires GrewByIds(s, data, t)
    ensures t.outCount == s.outCount + data.outCount && t.validCount == s.validCount + data.inCount
    ensures forall i :: 0 <= i < data.inCount ==> NamesGiven(s, data, t, i)
    ensures forall p :: 0 <= p < data.outCount ==> ValidIfGiven(s, data, t, p)
  {
    GrownHolds(s, data, t);
    forall i: nat | i < data.inCount ensures NamesGiven(s, data, t, i) {
      GrownVector(s, data, t, i);
    }
    forall p: nat | p < data.outCount ensures ValidIfGiven(s, data, t, p) {
      GrownPublicId(s, data, t, p);
    }
  }

  /** `t` is the sealed map `s` after the accepted `IDS` input. */
  ghost predicate SealedAgain(s: MapState, data: Input, t: MapState) {
    s.kind.SealedMap? && data.Ids? && Parse(SealedMap, s.outCount, data).Accepted? && Added(s, data, t)
  }

  /** What the input put into the sealed map. */
  ghost predicate HoldsGiven(data: Input, t: MapState) {
    && data.Ids? && (data.inCount > 0 ==> data.outIds.Some?)
    && 0 < data.outCount == t.outCount == |t.bitmap| <= MAX_DOMAIN
    && t.validCount == data.inCount && t.inToOut == GivenIds(data)
    && (forall i :: 0 <= i < data.inCount ==> InRange(GivenIds(data), i, 0, data.outCount))
    && (forall p :: 0 <= p < data.outCount ==> (t.bitmap[p] <==> p in GivenIds(data)))
    && (data.inCount > 0 ==> Inverts(t.outToIn, GivenIds(data)))
  }

  lemma SealedHolds(s: MapState, data: Input, t: MapState)
    requires SealedAgain(s, data, t)
    ensures HoldsGiven(data, t)
  {
    ParseIds(SealedMap, s.outCount, data);
    assert Parse(SealedMap, s.outCount, data).ids == GivenIds(data);
  }

  lemma SealedVector(data: Input, t: MapState, i: nat)
    requires HoldsGiven(data, t) && i < data.inCount
    ensures NamesGiven(FRESH_SEALED, data, t, i)
  {
    assert InRange(GivenIds(data), i, 0, data.outCount);
    assert GivenIds(data)[i] == data.outIds.value[i];
  }

  lemma SealedPublicId(data: Input, t: MapState, p: nat)
    requires HoldsGiven(data, t) && p < data.outCount
    ensures data.inCount > 0 ==> ValidIfGiven(FRESH_SEALED, data, t, p)
    ensures data.inCount == 0 ==> !IsValidOutId(t, p)
  {
  }

  /** Publishing an `IDS` input to a sealed map, whatever it held: vector number `i` names the id that the caller
      gave it, as if the map had been new. */
  lemma SealedByIds(s: MapState, data: Input, t: MapState)
    requires SealedAgain(s, data, t)
    ensures t.outCount == data.outCount && t.validCount == data.inCount
    ensures forall i :: 0 <= i < data.inCount ==> NamesGiven(FRESH_SEALED, data, t, i)
    ensures data.inCount > 0 ==> forall p :: 0 <= p < data.outCount ==> ValidIfGiven(FRESH_SEALED, data, t, p)
    ensures data.inCount == 0 ==> forall p :: 0 <= p < data.outCount ==> !IsValidOutId(t, p)
  {
    SealedHolds(s, data, t);
    forall i: nat | i < data.inCount ensures NamesGiven(FRESH_SEALED, data, t, i) {
      SealedVector(data, t, i);
    }
    forall p: nat | p < data.outCount
      ensures if data.inCount > 0 then ValidIfGiven(FRESH_SEALED, data, t, p) else !IsValidOutId(t, p)
    {
      SealedPublicId(data, t, p);
    }
  }

  /** Growing by validity: the new public ids are valid as the caller said. */
  lemma GrownByValidity(s: MapState, data: Validity, t: MapState, p: nat)
    requires GrowInv(s) && s.outCount + data.outCount <= MAX_DOMAIN && p < data.outCount && t == Grow(s, data)
    ensures t.outCount == s.outCount + data.outCount
    ensures IsValidOutId(t, s.outCount + p) <==>
            if data.PackedBitmap? then BitAt(data.bytes.value, p) else data.valid.value[p]
  {
    GrowByValidity(s, data, ValidityBits(data), t);
    GrowKeepsInv(s, data);
    assert t.bitmap[s.outCount + p] == ValidityBits(data)[p];
  }

  /** Publishing validity to a sealed map. */
  lemma SealedByValidity(s: MapState, data: Validity, t: MapState, p: nat)
    requires s.kind.SealedMap? && data.outCount <= MAX_DOMAIN && p < data.outCount && Added(s, data, t)
    ensures t.outCount == data.outCount
    ensures IsValidOutId(t, p) <==> if data.PackedBitmap? then BitAt(data.bytes.value, p) else data.valid.value[p]
  {
    ParseValidity(SealedMap, 0, data);
    assert Parse(SealedMap, s.outCount, data) == Parse(SealedMap, 0, data);
  }

  /** A map without data takes every id for itself, in both directions, and every id for valid. */
  lemma NoDataIsIdentity(s: MapState, o: nat)
    requires s.bitmap == [] && s.inToOut == [] && s.outCount == 0
    ensures MapInToOut(s, o) == o && MapOutToIn(s, o) == o && IsValidOutId(s, o)
    ensures MapOutToIn(s, MapInToOut(s, o)) == o
  {
  }

  /** Lookups outside the counts of any map: an id beyond them leads nowhere and is not valid, and a negative one
      stays negative. */
  lemma LookupsOutside(s: MapState, id: int)
    ensures s.outCount > 0 && id >= s.outCount ==> MapOutToIn(s, id) == -1 && !IsValidOutId(s, id)
    ensures s.inToOut != [] && id >= s.validCount ==> MapInToOut(s, id) == if id < 0 then id else -1
    ensures id < 0 ==> MapInToOut(s, id) == id && MapOutToIn(s, id) == -1 && !IsValidOutId(s, id)
  {
  }

  // ---- runs of growing maps -----------------------------------------------------------

  /** The map after feeding the inputs, in any mix of formats, to a fresh growing map. */
  ghost function Grown(inputs: seq<Input>): (s: MapState)
    ensures GrowInv(s)
  {
    if |inputs| == 0 then
      assert Linked([], [], []);
      FRESH_GROWING
    else
      var before := Grown(inputs[..|inputs| - 1]);
      GrowKeepsInv(before, inputs[|inputs| - 1]);
      Grow(before, inputs[|inputs| - 1])
  }

  /** Backend id `i` is stored and names a valid public id that leads back to it. */
  ghost predicate LeadsBack(s: MapState, i: nat) {
    && i < |s.inToOut|
    && 0 <= MapInToOut(s, i) < s.outCount && IsValidOutId(s, MapInToOut(s, i))
    && MapOutToIn(s, MapInToOut(s, i)) == i
  }

  /** Public id `o` leads to a counted backend id and back when it is valid, and nowhere when it is not. */
  ghost predicate ComesBack(s: MapState, o: nat) {
    if IsValidOutId(s, o)
    then 0 <= MapOutToIn(s, o) < s.validCount && MapInToOut(s, MapOutToIn(s, o)) == o
    else MapOutToIn(s, o) == INVALID
  }

  /** The two lookups are mutually inverse bijections between `[0, InCount)` and the valid public ids below
      `OutCount`, every counted backend id is stored, and invalid ids lead nowhere. */
  ghost predicate TwoWay(s: MapState) {
    && (forall i :: 0 <= i < s.validCount ==> LeadsBack(s, i))
    && (forall o :: 0 <= o < s.outCount ==> ComesBack(s, o))
  }

  /** After any run the two lookups of a growing map are mutually inverse, and `InCount` is the number of valid
      bits. */
  lemma GrownIsBijection(inputs: seq<Input>)
    ensures TwoWay(Grown(inputs)) && Grown(inputs).validCount == Pop(Grown(inputs).bitmap)
  {
    var s := Grown(inputs);
    GrowInvBounds(s);
    forall i: nat | i < s.validCount ensures LeadsBack(s, i) {
      assert Forward(s.bitmap, s.inToOut, s.outToIn.values, i);
    }
    forall o: nat | o < s.outCount ensures ComesBack(s, o) {
      assert Backward(s.bitmap, s.inToOut, s.outToIn.values, o);
    }
  }

  lemma {:induction false} GrownExtends(inputs: seq<Input>, more: seq<Input>)
    ensures var s, t := Grown(inputs), Grown(inputs + more);
            s.bitmap <= t.bitmap && s.inToOut <= t.inToOut && s.outToIn.values <= t.outToIn.values
    decreases |more|
  {
    if |more| == 0 {
      assert inputs + more == inputs;
    } else {
      var front := more[..|more| - 1];
      assert (inputs + more)[..|inputs + more| - 1] == inputs + front;
      GrownExtends(inputs, front);
      GrowKeepsInv(Grown(inputs + front), more[|more| - 1]);
    }
  }

  /** `t` has at least the bits, ids and inverse entries of `s`. */
  ghost predicate Grows(s: MapState, t: MapState) {
    && GrowInv(s) && GrowInv(t)
    && s.bitmap <= t.bitmap && s.inToOut <= t.inToOut && s.outToIn.values <= t.outToIn.values
  }

  lemma StablePublicId(s: MapState, t: MapState, o: nat)
    requires Grows(s, t) && o < s.outCount
    ensures MapOutToIn(t, o) == MapOutToIn(s, o) && (IsValidOutId(t, o) <==> IsValidOutId(s, o))
  {
    assert t.outToIn.values[o] == s.outToIn.values[o] && t.bitmap[o] == s.bitmap[o];
  }

  lemma StableBackendId(s: MapState, t: MapState, i: nat)
    requires Grows(s, t) && i < s.validCount
    ensures MapInToOut(t, i) == MapInToOut(s, i)
  {
    assert t.inToOut[i] == s.inToOut[i];
  }

  /** No later input changes the answer to a query about an id that was already published. */
  lemma PublishedIdsAreStable(inputs: seq<Input>, more: seq<Input>)
    ensures var s, t := Grown(inputs), Grown(inputs + more);
            && s.outCount <= t.outCount && s.validCount <= t.validCount
            && (forall o :: 0 <= o < s.outCount ==> MapOutToIn(t, o) == MapOutToIn(s, o))
            && (forall o :: 0 <= o < s.outCount ==> (IsValidOutId(t, o) <==> IsValidOutId(s, o)))
            && (forall i :: 0 <= i < s.validCount ==> MapInToOut(t, i) == MapInToOut(s, i))
  {
    GrownExtends(inputs, more);
    var s, t := Grown(inputs), Grown(inputs + more);
    forall o | 0 <= o < s.outCount
      ensures MapOutToIn(t, o) == MapOutToIn(s, o) && (IsValidOutId(t, o) <==> IsValidOutId(s, o))
    {
      StablePublicId(s, t, o);
    }
    forall i | 0 <= i < s.validCount ensures MapInToOut(t, i) == MapInToOut(s, i) {
      StableBackendId(s, t, i);
    }
  }

  // ---- batches against one sealed publish ---------------------------------------------

  /** An input in one of the two validity formats, with its buffer present. */
  predicate IsValidity(data: Input) {
    || (data.PackedBitmap? && data.bytes.Some?)
    || (data.BoolArray? && data.valid.Some?)
  }

  type Validity = data: Input | IsValidity(data) witness BoolArray(Some([]), 0)

  function ValidityBits(data: Validity): (bits: seq<bool>)
    ensures |bits| == data.outCount
  {
    if data.PackedBitmap? then Unpack(data.bytes.value, data.outCount) else data.valid.value[..data.outCount]
  }

  ghost function JoinedValidity(inputs: seq<Validity>): seq<bool> {
    if |inputs| == 0 then []
    else JoinedValidity(inputs[..|inputs| - 1]) + ValidityBits(inputs[|inputs| - 1])
  }

  /** A validity batch is refused exactly when its ids do not fit. */
  lemma ParseValidity(kind: MapKind, oldOutCount: nat, data: Validity)
    requires !kind.Disabled? && oldOutCount <= MAX_DOMAIN
    ensures Parse(kind, oldOutCount, data) ==
            var base, bits := if kind.GrowingMap? then oldOutCount else 0, ValidityBits(data);
            if bits == [] then Nothing
            else if base + |bits| <= MAX_DOMAIN then Accepted(bits, SetBits(bits, base))
            else Refused(PublicIdOverflow)
  {
  }

  lemma GrowByValidity(s: MapState, data: Validity, more: seq<bool>, t: MapState)
    requires GrowInv(s) && s.outCount + data.outCount <= MAX_DOMAIN
    requires more == ValidityBits(data) && t == Grow(s, data)
    ensures t.bitmap == s.bitmap + more && t.inToOut == s.inToOut + SetBits(more, s.outCount)
  {
    ParseValidity(s.kind, s.outCount, data);
  }

  lemma ListsJoin(s: MapState, bits: seq<bool>, more: seq<bool>, t: MapState)
    requires s.inToOut == SetBits(bits, 0) && t.inToOut == s.inToOut + SetBits(more, |bits|)
    ensures t.inToOut == SetBits(bits + more, 0)
  {
    SetBitsConcat(bits, more, 0);
  }

  /** A growing map refuses no validity batch as long as the total fits, and then holds the
      concatenated bits with the valid ids in ascending order. */
  lemma {:induction false} GrownFromValidity(inputs: seq<Validity>)
    requires |JoinedValidity(inputs)| <= MAX_DOMAIN
    ensures Grown(inputs).bitmap == JoinedValidity(inputs)
    ensures Grown(inputs).inToOut == SetBits(JoinedValidity(inputs), 0)
  {
    if |inputs| > 0 {
      var front, last := inputs[..|inputs| - 1], inputs[|inputs| - 1];
      GrownFromValidity(front);
      GrowByValidity(Grown(front), last, ValidityBits(last), Grown(inputs));
      ListsJoin(Grown(front), JoinedValidity(front), ValidityBits(last), Grown(inputs));
    }
  }

  /** The sealed counterpart: `t` is reached by publishing one input to a fresh map and deriving the maps. */
  ghost predicate SealedFrom(data: Input, t: MapState) {
    exists published :: Added(FRESH_SEALED, data, published) && Finalized(published, t)
  }

  lemma LinkedInverts(s: MapState)
    requires GrowInv(s)
    ensures Inverts(s.outToIn, s.inToOut)
  {
    forall i | 0 <= i < |s.inToOut| ensures Get(s.outToIn, s.inToOut[i]) == i {
      assert Forward(s.bitmap, s.inToOut, s.outToIn.values, i);
    }
    forall key | key !in s.inToOut ensures Get(s.outToIn, key) == INVALID {
      if 0 <= key < |s.bitmap| {
        assert Backward(s.bitmap, s.inToOut, s.outToIn.values, key);
      }
    }
  }

  lemma SealedShape(whole: Validity, t: MapState)
    requires whole.outCount <= MAX_DOMAIN && SealedFrom(whole, t)
    ensures var bits := ValidityBits(whole);
            && t.bitmap == bits && t.outCount == |bits|
            && t.inToOut == SetBits(bits, 0) && t.validCount == |SetBits(bits, 0)|
            && Inverts(t.outToIn, SetBits(bits, 0))
  {
    ParseValidity(SealedMap, 0, whole);
  }

  /** Both maps answer every query about every id alike. */
  ghost predicate SameAnswers(s: MapState, t: MapState) {
    && s.outCount == t.outCount && s.validCount == t.validCount
    && (forall o :: IsValidOutId(s, o) <==> IsValidOutId(t, o))
    && (forall i :: MapInToOut(s, i) == MapInToOut(t, i))
    && (forall o :: MapOutToIn(s, o) == MapOutToIn(t, o))
  }

  /** Bitmaps, counts and id lists that agree, with tables that invert them, answer alike. */
  lemma SameFromInverts(s: MapState, t: MapState)
    requires s.bitmap == t.bitmap && s.inToOut == t.inToOut
    requires s.outCount == t.outCount && s.validCount == t.validCount
    requires Inverts(s.outToIn, s.inToOut) && Inverts(t.outToIn, t.inToOut)
    ensures SameAnswers(s, t)
  {
    forall o ensures MapOutToIn(s, o) == MapOutToIn(t, o) {
      InverseIsUnique(s.outToIn, t.outToIn, s.inToOut, o);
    }
  }

  /** Feeding a validity bitmap to a growing map in arbitrary batches gives the same answers as
      feeding the concatenation to a fresh sealed map and deriving its maps, whichever table form the
      sealed map picks. */
  lemma BatchesEqualSealed(inputs: seq<Validity>, whole: Validity, t: MapState)
    requires ValidityBits(whole) == JoinedValidity(inputs) && whole.outCount <= MAX_DOMAIN
    requires SealedFrom(whole, t)
    ensures SameAnswers(Grown(inputs), t)
  {
    var s := Grown(inputs);
    GrownFromValidity(inputs);
    LinkedInverts(s);
    SealedShape(whole, t);
    SameFromInverts(s, t);
  }
}
