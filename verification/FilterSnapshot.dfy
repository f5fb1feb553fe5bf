/** The counters of a filter, counted through a snapshot of the validity of an id map. */
module FilterSnapshots {
  import opened Bits
  import opened AppendProtocol
  import opened Bitmaps
  import opened FilterCount
  import opened BitsetViews
  import opened IdDomain
  import opened IdMapSpec
  import opened FilterTheorems

  /** The validity that the counts see up to `end`: a bitmap without bits lets every id through. */
  ghost function SeenBits(valid: BitmapArray, end: nat): (bits: seq<bool>)
    requires valid.Valid() && (valid.Contents() != [] ==> valid.HasBytes(ByteSize(end)))
    reads valid, valid.append, valid.Shared()
    ensures |bits| == end
  {
    if valid.Contents() == [] then Mask(end, 0, end) else valid.StoredBits(end)
  }

  /** `count_filtered_bits` with a bitmap that may be an append log. */
  method CountFilteredIn(view: BitsetView, bitOffset: nat, bitCount: nat, valid: BitmapArray)
    requires view.Sized() && valid.Valid()
    requires view.Counts(bitOffset, bitCount) && valid.Contents() != [] ==>
               valid.HasBytes(ByteSize(view.Covered(bitOffset, bitCount)))
    modifies view`vectorCount, view`filteredCount
    ensures view.Sized() && (view.Valid() <==> old(view.Valid()))
    ensures !view.Counts(bitOffset, bitCount) ==> view.vectorCount == 0 && view.filteredCount == Some(0)
    ensures view.Counts(bitOffset, bitCount) ==>
              var end := view.Covered(bitOffset, bitCount);
              && view.vectorCount == Pop(SeenBits(valid, end)[bitOffset..])
              && view.filteredCount == Some(Pop(And(SeenBits(valid, end), Unpack(view.bits.value, end))[bitOffset..]))
  {
    if !view.Counts(bitOffset, bitCount) || valid.IsEmpty() {
      view.CountFilteredBits(bitOffset, bitCount, None);
    } else {
      var data := valid.ReadBytes(view.Covered(bitOffset, bitCount));
      view.CountFilteredBits(bitOffset, bitCount, Some(data));
    }
  }

  /** `CountBitmapBits`: the set bits of the bitmap from `from` on. */
  method CountBitmapBits(valid: BitmapArray, from: nat, ghost own: seq<bool>) returns (count: nat)
    requires valid.Valid() && valid.Contents() == own && from < |own| && valid.HasBytes(ByteSize(|own|))
    ensures count == Pop(own[from..])
  {
    var size := valid.Size();
    var data := valid.ReadBytes(size);
    assert Unpack(data, size) == own by {
      valid.StoredIsOwn(size);
      assert own[..size] == own;
    }
    count := CountBytes(data, from, size, own);
  }

  method CountBytes(data: seq<Byte>, from: nat, size: nat, ghost own: seq<bool>) returns (count: nat)
    requires from < size == |own| && ByteSize(size) <= |data| && Unpack(data, size) == own
    ensures count == Pop(own[from..])
  {
    var all;
    all, count := CountWindow(data, None, from, size);
    AndAll(own);
  }

  lemma AndAll(bits: seq<bool>)
    ensures And(Mask(|bits|, 0, |bits|), bits) == bits
  {
  }

  /** The counters over the whole bitset. */
  method CountWhole(view: BitsetView, valid: BitmapArray,
                    ghost own: seq<bool>, ghost seen: seq<bool>, ghost bits: seq<bool>)
    requires view.Sized() && view.bits.Some? && view.numBits > 0 && valid.Valid() && valid.Contents() == own != []
    requires bits == Unpack(view.bits.value, view.numBits)
    requires valid.HasBytes(ByteSize(view.numBits)) && seen == valid.StoredBits(view.numBits)
    modifies view`vectorCount, view`filteredCount
    ensures view.Sized() && (view.Valid() <==> old(view.Valid()))
    ensures valid.Valid() && valid.Contents() == own
    ensures view.vectorCount == Pop(seen) && view.filteredCount == Some(Pop(And(seen, bits)))
  {
    CountFilteredIn(view, 0, view.numBits, valid);
    assert seen[0..] == seen && And(seen, bits)[0..] == And(seen, bits);
  }

  /** How many valid ids the snapshot shows beyond the bitset, if it goes on there. */
  method Beyond(valid: BitmapArray, numBits: nat, ghost own: seq<bool>) returns (beyond: Option<nat>)
    requires valid.Valid() && valid.Contents() == own && valid.HasBytes(ByteSize(|own|))
    ensures beyond == if |own| <= numBits then None else Some(Pop(own[numBits..]))
  {
    var size := valid.Size();
    if size <= numBits {
      return None;
    }
    var count := CountBitmapBits(valid, numBits, own);
    beyond := Some(count);
  }

  /** Counts them as filtered. */
  method AddFiltered(view: BitsetView, count: nat, beyond: Option<nat>, ghost vectors: nat, ghost filtered: nat)
    requires view.Sized() && view.vectorCount == vectors && view.filteredCount == Some(filtered)
    modifies view`vectorCount, view`filteredCount
    ensures view.Sized() && (view.Valid() <==> old(view.Valid()))
    ensures view.vectorCount == if beyond.Some? && count > 0 then count else vectors
    ensures view.filteredCount
         == Some(if beyond.Some? then Min(filtered + beyond.value, view.vectorCount) else filtered)
  {
    if beyond.Some? {
      var total := view.filteredCount.value + beyond.value;
      view.vectorCount := if count > 0 then count else view.vectorCount;
      view.filteredCount := Some(Min(total, view.vectorCount));
    }
  }

  /** What `CalcBitsetCount` leaves, `own` being the bits of the snapshot, `seen` those of its storage and `bits`
      those of the bitset. When the snapshot goes on beyond the bitset, its valid ids there count as filtered. */
  ghost predicate Calculated(own: seq<bool>, seen: seq<bool>, bits: seq<bool>, count: nat,
                             vectors: nat, filtered: Option<nat>)
    requires |seen| == |bits|
  {
    if |own| <= |bits| then vectors == Pop(seen) && filtered == Some(Pop(And(seen, bits)))
    else
      && vectors == (if count > 0 then count else Pop(seen))
      && filtered == Some(Min(Pop(And(seen, bits)) + Pop(own[|bits|..]), vectors))
  }

  /** `CalcBitsetCount` of a vector index that holds `count` vectors, over all public ids. */
  method CalcBitsetCount(view: BitsetView, valid: BitmapArray, count: nat)
    requires view.Sized() && valid.Valid() && valid.Contents() != []
    requires view.bits.Some? ==>
               valid.HasBytes(ByteSize(view.numBits)) && valid.HasBytes(ByteSize(|valid.Contents()|))
    modifies view`vectorCount, view`filteredCount
    ensures view.Sized() && (view.Valid() <==> old(view.Valid()))
    ensures view.bits.None? || view.numBits == 0 ==>
              view.vectorCount == old(view.vectorCount) && view.filteredCount == old(view.filteredCount)
    ensures view.bits.Some? && view.numBits > 0 ==>
              Calculated(old(valid.Contents()), old(valid.StoredBits(view.numBits)),
                         Unpack(view.bits.value, view.numBits), count, view.vectorCount, view.filteredCount)
  {
    if view.numBits == 0 || view.bits.None? {
      return;
    }
    CalcCovered(view, valid, count, valid.Contents(), valid.StoredBits(view.numBits),
                Unpack(view.bits.value, view.numBits));
  }

  method CalcCovered(view: BitsetView, valid: BitmapArray, count: nat,
                     ghost own: seq<bool>, ghost seen: seq<bool>, ghost bits: seq<bool>)
    requires view.Sized() && view.bits.Some? && view.numBits > 0 && bits == Unpack(view.bits.value, view.numBits)
    requires valid.Valid() && valid.Contents() == own != [] && valid.HasBytes(ByteSize(|own|))
    requires valid.HasBytes(ByteSize(view.numBits)) && seen == valid.StoredBits(view.numBits)
    modifies view`vectorCount, view`filteredCount
    ensures view.Sized() && (view.Valid() <==> old(view.Valid()))
    ensures Calculated(own, seen, bits, count, view.vectorCount, view.filteredCount)
  {
    CountWhole(view, valid, own, seen, bits);
    var beyond := Beyond(valid, view.numBits, own);
    AddFiltered(view, count, beyond, Pop(seen), Pop(And(seen, bits)));
  }

  // ---- the counters against the per-id test --------------------------------------------------------

  function PackAll(bits: seq<bool>): (data: seq<Byte>)
    ensures |data| == ByteSize(|bits|)
  {
    seq(ByteSize(|bits|), k requires 0 <= k < ByteSize(|bits|) => PackedByte(bits, k))
  }

  lemma PackAllUnpacks(bits: seq<bool>)
    ensures Unpack(PackAll(bits), |bits|) == bits
  {
    BytesShowOwn(bits, seq(ByteSize(|bits|), _ => bits), PackAll(bits));
  }

  /** The view filters the backend ids of `s` through its ids. */
  ghost predicate FiltersMap(view: BitsetView, s: MapState)
    reads view
  {
    && view.Valid() && view.bits.Some? && view.idOffset == 0
    && view.outIds == s.inToOut && view.outIdsCount == s.validCount
  }

  /** The number of vectors and of filtered vectors, split where the bitset or the public ids end. */
  lemma CountsSplit(view: BitsetView, s: MapState, end: nat)
    requires Listed(s) && FiltersMap(view, s) && end == End(view, s)
    ensures ByteSize(end) <= |view.bits.value|
    ensures s.validCount == Pop(s.bitmap[..end]) + Pop(s.bitmap[end..])
    ensures CountTested(view, s.validCount)
         == Pop(And(s.bitmap[..end], Unpack(view.bits.value, end))) + Pop(s.bitmap[end..])
  {
    var data := PackAll(s.bitmap);
    PackAllUnpacks(s.bitmap);
    TestedSplits(view, s, data);
    UnpackPart(data, s.outCount, end);
  }

  lemma {:induction false} TestedAtMost(view: BitsetView, n: nat)
    requires view.Valid()
    ensures CountTested(view, n) <= n
  {
    if n > 0 {
      TestedAtMost(view, n - 1);
    }
  }

  lemma PopCut(s: seq<bool>, cut: nat)
    requires cut <= |s|
    ensures Pop(s) == Pop(s[..cut]) + Pop(s[cut..])
  {
    assert s == s[..cut] + s[cut..];
    PopConcat(s[..cut], s[cut..]);
  }

  lemma AndCut(a: seq<bool>, b: seq<bool>, cut: nat)
    requires |a| == |b| && cut <= |a|
    ensures And(a, b)[..cut] == And(a[..cut], b[..cut])
  {
    forall i | 0 <= i < cut ensures And(a, b)[..cut][i] == And(a[..cut], b[..cut])[i] {
    }
  }

  /** A bitset at least as long as the snapshot: both counts are right up to what is logged beyond the snapshot. */
  lemma LongBitsetIff(view: BitsetView, s: MapState, seen: seq<bool>)
    requires Listed(s) && FiltersMap(view, s) && s.outCount <= view.numBits == |seen| && seen[..s.outCount] == s.bitmap
    ensures Pop(seen) == s.validCount <==> IsZero(seen[s.outCount..])
    ensures Pop(And(seen, Unpack(view.bits.value, view.numBits))) == CountTested(view, s.validCount)
       <==> IsZero(And(seen, Unpack(view.bits.value, view.numBits))[s.outCount..])
  {
    var cut, bits := s.outCount, Unpack(view.bits.value, view.numBits);
    CountsSplit(view, s, cut);
    assert s.bitmap[..cut] == s.bitmap && s.bitmap[cut..] == [];
    UnpackPart(view.bits.value, view.numBits, cut);
    PopCut(seen, cut);
    PopCut(And(seen, bits), cut);
    AndCut(seen, bits, cut);
    NonePop(seen[cut..]);
    NonePop(And(seen, bits)[cut..]);
  }

  /** What the storage shows beyond `own` as far as the bitset goes. */
  ghost function Later(own: seq<bool>, seen: seq<bool>): seq<bool> {
    if |seen| < |own| then [] else seen[|own|..]
  }

  /** The calculated counters are the number of backend vectors exactly when no id beyond the snapshot and covered
      by the bitset shows as valid, and the number of them that `test` filters exactly when none shows as valid and
      filtered. A bitset shorter than the snapshot covers none. */
  lemma CalculatedIff(view: BitsetView, s: MapState, seen: seq<bool>, bits: seq<bool>,
                      vectors: nat, filtered: Option<nat>)
    requires Listed(s) && FiltersMap(view, s) && |seen| == view.numBits && bits == Unpack(view.bits.value, view.numBits)
    requires if view.numBits < s.outCount then seen == s.bitmap[..view.numBits] else seen[..s.outCount] == s.bitmap
    requires Calculated(s.bitmap, seen, bits, s.validCount, vectors, filtered)
    ensures vectors == s.validCount <==> IsZero(Later(s.bitmap, seen))
    ensures filtered == Some(CountTested(view, s.validCount)) <==> IsZero(Later(s.bitmap, And(seen, bits)))
  {
    if view.numBits < s.outCount {
      CountsSplit(view, s, view.numBits);
      TestedAtMost(view, s.validCount);
    } else {
      LongBitsetIff(view, s, seen);
    }
  }

  lemma StoredPrefix(valid: BitmapArray, n: nat)
    requires valid.Valid() && valid.HasBytes(ByteSize(n)) && valid.HasBytes(ByteSize(|valid.Contents()|))
    ensures var own := valid.Contents();
            if n < |own| then valid.StoredBits(n) == own[..n] else valid.StoredBits(n)[..|own|] == own
  {
    if n <= |valid.Contents()| {
      valid.StoredIsOwn(n);
    } else {
      valid.StoredIsOwn(|valid.Contents()|);
    }
  }

  /** The counters left through a snapshot of the validity of `s`, whatever has been appended since. */
  method CalcThroughSnapshot(view: BitsetView, valid: BitmapArray, count: nat, ghost s: MapState)
    requires Listed(s) && FiltersMap(view, s) && view.numBits > 0 && count == s.validCount
    requires valid.Valid() && valid.Contents() == s.bitmap != []
    requires valid.HasBytes(ByteSize(view.numBits)) && valid.HasBytes(ByteSize(s.outCount))
    modifies view`vectorCount, view`filteredCount
    ensures FiltersMap(view, s)
    ensures var seen, bits := old(valid.StoredBits(view.numBits)), Unpack(view.bits.value, view.numBits);
            && (view.vectorCount == s.validCount <==> IsZero(Later(s.bitmap, seen)))
            && (view.filteredCount == Some(CountTested(view, s.validCount))
                <==> IsZero(Later(s.bitmap, And(seen, bits))))
  {
    ghost var seen, bits := valid.StoredBits(view.numBits), Unpack(view.bits.value, view.numBits);
    StoredPrefix(valid, view.numBits);
    CalcBitsetCount(view, valid, count);
    CalculatedIff(view, s, seen, bits, view.vectorCount, view.filteredCount);
  }

  /** A snapshot of one valid id, a second one appended since, and a bitset of two bits: both are counted. */
  lemma LaterIdIsCounted(s: MapState, valid: BitmapArray, bits: seq<bool>, vectors: nat, filtered: Option<nat>)
    requires Listed(s) && s.bitmap == [true] && |bits| == 2
    requires valid.Valid() && valid.kind.Appendable? && valid.bitCount == Some(1)
    requires valid.append != null && valid.append.bits == [true, true]
    requires Calculated(s.bitmap, valid.StoredBits(2), bits, s.validCount, vectors, filtered)
    ensures valid.Contents() == s.bitmap && s.validCount == 1 && vectors == 2
  {
    EnumerationLength(s.inToOut, s.bitmap, 0);
    assert valid.StoredBits(2) == [true, true];
    assert [true, true][1..] == [true];
  }
}
