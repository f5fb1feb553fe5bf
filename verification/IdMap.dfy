/** The id map: four stores and two published counts. */
module IdMaps {
  import opened Bits
  import opened Chunks
  import opened AppendProtocol
  import opened ArrayStores
  import opened AdaptiveStores
  import opened Bitmaps
  import opened IdDomain
  import opened IdMapSpec
  import opened IdMapTheorems
  import opened IdMapInput
  import Protocol = IdMapProtocol

  class IdMap {
    var kind: MapKind
    /** Backend id to public id. */
    const inToOut: ArrayStore<int>
    /** Public id to backend id. */
    const outToIn: AdaptiveStore
    /** Validity of the public ids. */
    const bitmap: BitmapArray
    var outCount: nat
    var validCount: nat

    ghost function Repr(): set<object>
      reads inToOut, outToIn.dense, bitmap
    {
      {this, inToOut, outToIn, outToIn.dense, bitmap} + bitmap.Shared()
      + (if inToOut.append == null then {} else {inToOut.append})
      + (if outToIn.dense.append == null then {} else {outToIn.dense.append})
    }

    /** The stores are well formed and share nothing. */
    ghost predicate Separate()
      reads this, inToOut, inToOut.append, outToIn, outToIn.dense, outToIn.dense.append
      reads bitmap, bitmap.append, bitmap.Shared()
    {
      && inToOut.Valid() && outToIn.Valid() && bitmap.Valid()
      && inToOut != outToIn.dense
      && (inToOut.append != null ==> inToOut.append != outToIn.dense.append && inToOut.append !in bitmap.Shared())
      && (outToIn.dense.append != null ==> outToIn.dense.append !in bitmap.Shared())
    }

    /** Every store is open for appends; they hold these bits, in at most `records` records, these ids
        and these inverse values. */
    ghost predicate Holding(bits: seq<bool>, records: nat, ids: seq<int>, values: seq<int>)
      reads this, inToOut, inToOut.append, outToIn, outToIn.dense, outToIn.dense.append
      reads bitmap, bitmap.append, bitmap.Shared()
    {
      && Separate()
      && inToOut.Open() && inToOut.Contents() == ids
      && bitmap.Open() && bitmap.Contents() == bits && |bitmap.append.records.elements| <= records
      && outToIn.kind.Appendable? && !outToIn.useSparse && outToIn.dense.Open()
      && outToIn.dense.Contents() == values
    }

    ghost function State(): MapState
      requires Separate()
      reads this, inToOut, inToOut.append, outToIn, outToIn.dense, outToIn.dense.append
      reads bitmap, bitmap.append, bitmap.Shared()
    {
      MapState(kind, bitmap.Contents(), inToOut.Contents(), outToIn.Contents(), outCount, validCount)
    }

    ghost predicate Valid()
      reads this, inToOut, inToOut.append, outToIn, outToIn.dense, outToIn.dense.append
      reads bitmap, bitmap.append, bitmap.Shared()
    {
      && Separate()
      && |bitmap.Contents()| == outCount <= MAX_DOMAIN
      && (outCount == 0 ==> Blank())
      && (kind.GrowingMap? ==>
            && Holding(bitmap.Contents(), outCount, inToOut.Contents(), outToIn.dense.Contents())
            && GrowInv(State()))
      && (kind.SealedMap? ==> outToIn.kind.Sealed?)
    }

    /** Nothing is stored in any form of storage. */
    ghost predicate Blank()
      reads this, inToOut, inToOut.append, outToIn, outToIn.dense, outToIn.dense.append
      reads bitmap, bitmap.append, bitmap.Shared()
    {
      && inToOut.sealedData.None? && (inToOut.append != null ==> inToOut.append.elements == [])
      && outToIn.dense.sealedData.None? && !outToIn.useSparse
      && (outToIn.dense.append != null ==> outToIn.dense.append.elements == [])
      && (bitmap.append != null ==> bitmap.append.bits == [] && bitmap.append.records.elements == [])
    }

    constructor ()
      ensures Valid() && State() == MapState(Disabled, [], [], Dense([]), 0, 0) && fresh(Repr())
    {
      kind, outCount, validCount := Disabled, 0, 0;
      inToOut := new ArrayStore<int>(0);
      outToIn := new AdaptiveStore();
      bitmap := new BitmapArray();
    }

    /** Asking for the type a map has changes nothing, and a map that holds data refuses any other. */
    method SetType(type_: MapKind) returns (ok: bool)
      requires Valid()
      modifies this, inToOut, outToIn, outToIn.dense, bitmap
      ensures Valid() && TypeSet(old(State()), type_, ok, State())
      ensures ok ==> kind == type_
      ensures ok <==> type_ == old(kind) ||
                      (old(State()).bitmap == [] && old(State()).inToOut == [] && old(outCount) == old(validCount) == 0)
      ensures fresh(Repr() - old(Repr()))
    {
      if kind == type_ {
        return true;
      }
      if outCount != 0 || validCount != 0 || !inToOut.IsEmpty() || !bitmap.IsEmpty() {
        return false;
      }
      ChooseType(type_);
      ok := true;
    }

    /** Turns a map that holds nothing into an empty one of the type. */
    method ChooseType(type_: MapKind)
      requires Separate() && Blank() && outCount == 0 && validCount == 0
      modifies this, inToOut, outToIn, outToIn.dense, bitmap
      ensures Valid() && State() == MapState(type_, [], [], Dense([]), 0, 0)
      ensures fresh(Repr() - old(Repr()))
    {
      kind := type_;
      SetStores(if type_.GrowingMap? then Appendable else Sealed);
      EmptyIsValid();
      NothingTakenOver();
    }

    method SetStores(storage: Kind)
      requires Separate() && Blank()
      modifies inToOut, outToIn, outToIn.dense, bitmap
      ensures Separate() && Blank() && outToIn.kind == storage
      ensures inToOut.Contents() == [] && outToIn.Contents() == Dense([]) && bitmap.Contents() == []
      ensures storage.Appendable? ==> Holding([], 0, [], [])
      ensures KeptOrFresh()
    {
      inToOut.SetType(storage);
      outToIn.SetType(storage);
      bitmap.SetType(storage);
    }

    lemma EmptyIsValid()
      requires Separate() && Blank() && outCount == 0 && validCount == 0
      requires inToOut.Contents() == [] && outToIn.Contents() == Dense([]) && bitmap.Contents() == []
      requires if kind.GrowingMap? then Holding([], 0, [], []) else outToIn.kind.Sealed?
      ensures Valid()
    {
      Protocol.InitialInv();
    }

    /** Each growing storage is the one there was or a new one. */
    twostate predicate KeptOrFresh()
      reads inToOut, outToIn.dense, bitmap
    {
      && (inToOut.append != old(inToOut.append) ==> fresh(inToOut.append))
      && (outToIn.dense.append != old(outToIn.dense.append) ==> fresh(outToIn.dense.append))
      && (bitmap.append != old(bitmap.append) ==> fresh(bitmap.Shared()))
    }

    twostate lemma NothingTakenOver()
      requires KeptOrFresh()
      ensures fresh(Repr() - old(Repr()))
    {
    }

    // ---- appending a validated batch ----------------------------------------------------

    /** What readers of a growing map can load now, `writer` being how far the writer has got from the map
        `published` last. */
    ghost function Now(writer: Protocol.Writer, published: MapState): Protocol.State
      requires inToOut.append != null && outToIn.dense.append != null && bitmap.append != null
      reads this, inToOut, inToOut.append, outToIn, outToIn.dense, outToIn.dense.append, bitmap, bitmap.append
    {
      Protocol.State(bitmap.append.bits, bitmap.append.bitCount, inToOut.append.elements,
                     outToIn.dense.append.elements, validCount, outCount, writer, published)
    }

    method AppendBits(bytes: seq<Byte>, count: nat, ghost batch: Batch, ghost p: MapState,
                      ghost bits: seq<bool>, ghost records: nat, ghost ids: seq<int>, ghost values: seq<int>)
      returns (ghost between: Protocol.State, ghost now: Protocol.State)
      requires Holding(bits, records, ids, values) && records < CAPACITY
      requires ByteSize(count) <= |bytes| && count != 0
      modifies bitmap.Shared()
      ensures var longer := bits + Unpack(bytes, count);
        && Holding(longer, records + 1, ids, values)
        && between == Protocol.State(longer, |bits|, ids, values, validCount, outCount, Protocol.Adding(batch, 1), p)
        && now == Protocol.State(longer, |longer|, ids, values, validCount, outCount, Protocol.Adding(batch, 2), p)
    {
      var marked;
      ghost var seen;
      marked, seen := bitmap.Append(bytes, count);
      assert marked;
      now := Now(Protocol.Adding(batch, 2), p);
      between := now.(recorded := seen.recorded, bitCount := seen.count, writer := Protocol.Adding(batch, 1));
    }

    method AppendIds(more: seq<int>, ghost batch: Batch, ghost p: MapState,
                     ghost bits: seq<bool>, ghost records: nat, ghost ids: seq<int>, ghost values: seq<int>)
      returns (ghost now: Protocol.State)
      requires Holding(bits, records, ids, values) && |ids| + |more| <= CAPACITY
      modifies inToOut.append
      ensures Holding(bits, records, ids + more, values)
      ensures now == Protocol.State(bits, |bits|, ids + more, values, validCount, outCount,
                                    Protocol.Adding(batch, 3), p)
    {
      var listed := inToOut.Append(more);
      assert listed.Stored?;
      assert more == [] ==> ids + more == ids;
      now := Now(Protocol.Adding(batch, 3), p);
    }

    /** The inverse table of a growing map takes a good batch. */
    method ExtendInverse(keys: seq<int>, count: nat, valueBegin: nat, ghost batch: Batch, ghost values: seq<int>)
      requires outToIn.Valid() && outToIn.kind.Appendable? && !outToIn.useSparse && outToIn.dense.Open()
      requires outToIn.dense.Contents() == values
      requires GoodBatch(batch, |values|) && batch.ids == keys && |batch.bits| == count && valueBegin <= |values|
      modifies outToIn.dense.append
      ensures outToIn.Valid() && outToIn.dense.Contents() == values + InverseOf(batch, |values|, valueBegin)
    {
      InverseFills(batch, |values|, valueBegin);
      var size := outToIn.dense.Size();
      var fault, more := outToIn.Append(keys, size, count, valueBegin);
      assert fault.None?;
    }

    method AppendInverse(keys: seq<int>, count: nat, valueBegin: nat, ghost batch: Batch, ghost p: MapState,
                         ghost bits: seq<bool>, ghost records: nat, ghost ids: seq<int>, ghost values: seq<int>)
      returns (ghost now: Protocol.State)
      requires Holding(bits, records, ids, values)
      requires GoodBatch(batch, |values|) && batch.ids == keys && |batch.bits| == count && valueBegin <= |values|
      modifies outToIn.dense.append
      ensures var longer := values + InverseOf(batch, |values|, valueBegin);
        && Holding(bits, records, ids, longer)
        && now == Protocol.State(bits, |bits|, ids, longer, validCount, outCount, Protocol.Adding(batch, 4), p)
    {
      ExtendInverse(keys, count, valueBegin, batch, values);
      now := Now(Protocol.Adding(batch, 4), p);
    }

    /** The three appends of a validated batch; none of them can be refused. `trace` is what readers can
        load after each store. */
    method AppendStores(bytes: seq<Byte>, count: nat, more: seq<int>, valueBegin: nat, ghost batch: Batch,
                        ghost p: MapState,
                        ghost bits: seq<bool>, ghost records: nat, ghost ids: seq<int>, ghost values: seq<int>)
      returns (ghost trace: seq<Protocol.State>)
      requires Holding(bits, records, ids, values) && records < CAPACITY
      requires ByteSize(count) <= |bytes| && batch == Accepted(Unpack(bytes, count), more)
      requires GoodBatch(batch, |values|) && valueBegin == |ids| <= |values|
      modifies inToOut.append, outToIn.dense.append, bitmap.Shared()
      ensures Holding(bits + batch.bits, records + 1, ids + more, values + InverseOf(batch, |values|, valueBegin))
      ensures trace == Appended(bits, ids, values, batch, valueBegin, validCount, outCount, p)
    {
      EnumerationLength(more, batch.bits, |values|);
      ghost var s1, s2 := AppendBits(bytes, count, batch, p, bits, records, ids, values);
      ghost var s3 := AppendIds(more, batch, p, bits + batch.bits, records + 1, ids, values);
      ghost var s4 := AppendInverse(more, count, valueBegin, batch, p,
                                    bits + batch.bits, records + 1, ids + more, values);
      trace := [s1, s2, s3, s4];
    }

    /** The tail of `AddFromData` on a growing map: the appends and then the two counts, valid ids first. What
        readers can load meanwhile are exactly the steps of the protocol. */
    method AppendValidated(bytes: seq<Byte>, count: nat, ids: seq<int>) returns (ghost trace: seq<Protocol.State>)
      requires Valid() && kind.GrowingMap?
      requires ByteSize(count) <= |bytes| && GoodBatch(Accepted(Unpack(bytes, count), ids), outCount)
      modifies this`outCount, this`validCount, inToOut.append, outToIn.dense.append, bitmap.Shared()
      ensures Valid()
      ensures State() == AppendBatch(old(State()), Accepted(Unpack(bytes, count), ids))
      ensures trace == Protocol.AddTrace(old(State()), Accepted(Unpack(bytes, count), ids))
    {
      ghost var batch := Accepted(Unpack(bytes, count), ids);
      ghost var p := State();
      NowQuiet(batch);
      ghost var before, begun := Now(Protocol.Idle, p), Now(Protocol.Adding(batch, 0), p);
      ghost var stores, counted, after := AppendAll(bytes, count, ids, batch, p);
      trace := [before, begun] + stores + [counted, after];
      StoresMakeTrace(p, batch, stores, counted);
    }

    method AppendAll(bytes: seq<Byte>, count: nat, ids: seq<int>, ghost batch: Batch, ghost p: MapState)
      returns (ghost stores: seq<Protocol.State>, ghost counted: Protocol.State, ghost after: Protocol.State)
      requires kind.GrowingMap? && p.kind == kind && GrowInv(p) && p.outCount == outCount && p.validCount == validCount
      requires Holding(p.bitmap, p.outCount, p.inToOut, p.outToIn.values)
      requires ByteSize(count) <= |bytes| && batch == Accepted(Unpack(bytes, count), ids)
      requires GoodBatch(batch, p.outCount)
      modifies this`outCount, this`validCount, inToOut.append, outToIn.dense.append, bitmap.Shared()
      ensures Valid() && State() == AppendBatch(p, batch)
      ensures stores == Appended(p.bitmap, p.inToOut, p.outToIn.values, batch,
                                 p.validCount, p.validCount, p.outCount, p)
      ensures counted == Counted(AppendBatch(p, batch), p.outCount, batch, p)
      ensures after == Protocol.Quiet(AppendBatch(p, batch))
    {
      GrowInvBounds(p);
      AppendBatchKeepsInv(p, batch);
      stores := AppendStores(bytes, count, ids, validCount, batch, p, p.bitmap, outCount, p.inToOut, p.outToIn.values);
      ghost var t := AppendBatch(p, batch);
      assert Holding(t.bitmap, outCount + 1, t.inToOut, t.outToIn.values);
      HoldsMore(outCount + 1, outCount + count, t);
      counted, after := PublishCounts(outCount + count, validCount + |ids|, batch, t, p);
    }

    lemma HoldsMore(records: nat, more: nat, t: MapState)
      requires t.outToIn.Dense? && records <= more && Holding(t.bitmap, records, t.inToOut, t.outToIn.values)
      ensures Holding(t.bitmap, more, t.inToOut, t.outToIn.values)
    {
    }

    /** Between two batches readers can load the published map. */
    lemma NowQuiet(batch: Batch)
      requires Valid() && kind.GrowingMap? && batch.Accepted?
      ensures inToOut.append != null && outToIn.dense.append != null && bitmap.append != null
      ensures Now(Protocol.Idle, State()) == Protocol.Quiet(State())
      ensures Now(Protocol.Adding(batch, 0), State()) == Protocol.Partly(State(), batch, 0)
    {
      Protocol.PartlyStates(State(), batch);
    }

    /** The valid count is stored before the public count: `between` is what readers see in the meantime. */
    method PublishCounts(newOutCount: nat, newValidCount: nat, ghost batch: Batch, ghost t: MapState, ghost p: MapState)
      returns (ghost between: Protocol.State, ghost now: Protocol.State)
      requires kind.GrowingMap? && t.kind == kind && GrowInv(t) && newOutCount > 0
      requires Holding(t.bitmap, newOutCount, t.inToOut, t.outToIn.values)
      requires newOutCount == t.outCount && newValidCount == t.validCount
      modifies this`outCount, this`validCount
      ensures Valid() && State() == t
      ensures between == Counted(t, old(outCount), batch, p)
      ensures now == Protocol.Quiet(t)
    {
      validCount := newValidCount;
      between := Now(Protocol.Adding(batch, 5), p);
      outCount := newOutCount;
      now := Now(Protocol.Idle, t);
    }

    // ---- AddFromData --------------------------------------------------------------------

    /** Takes a reading to a growing map. */
    method ApplyGrowing(reading: Reading, count: nat, ghost batch: Batch) returns (ghost trace: seq<Protocol.State>)
      requires Valid() && kind.GrowingMap?
      requires ReadsAs(reading, count, batch) && !reading.ReadBits?
      requires batch.Accepted? ==> GoodBatch(batch, outCount)
      modifies this`outCount, this`validCount, inToOut.append, outToIn.dense.append, bitmap.Shared()
      ensures Valid() && State() == Extended(old(State()), batch)
      ensures trace == Protocol.BatchTrace(old(State()), batch)
    {
      if reading.Read? {
        trace := AppendValidated(reading.bytes, count, reading.ids);
      } else {
        trace := [Now(Protocol.Idle, State())];
      }
    }

    method AddSealedValidity(bytes: seq<Byte>, count: nat)
      requires Separate() && kind.SealedMap? && outToIn.kind.Sealed?
      requires ByteSize(count) <= |bytes| && 0 < count <= MAX_DOMAIN
      modifies this`outCount, this`validCount, bitmap
      ensures Valid()
      ensures State() == SealBits(old(State()), Unpack(bytes, count))
    {
      bitmap.Set(bytes, count);
      validCount := CountPackedBitmap(bytes, count);
      outCount := count;
    }

    method AddSealedIds(bytes: seq<Byte>, count: nat, ids: seq<int>)
      requires Separate() && kind.SealedMap? && outToIn.kind.Sealed?
      requires ByteSize(count) <= |bytes| && GoodBatch(Accepted(Unpack(bytes, count), ids), 0)
      modifies this`outCount, this`validCount, bitmap, inToOut, outToIn, outToIn.dense
      ensures Valid()
      ensures Remapped(SealBits(old(State()), Unpack(bytes, count)), ids, State())
    {
      bitmap.Set(bytes, count);
      inToOut.Set(ids);
      validCount := |ids|;
      outCount := count;
      if |ids| != 0 {
        SetInverse(ids, Unpack(bytes, count));
      }
    }

    method SetIds(ids: seq<int>)
      requires Separate() && kind.SealedMap?
      modifies inToOut
      ensures Separate() && inToOut.Contents() == ids
      ensures outToIn.Contents() == old(outToIn.Contents()) && bitmap.Contents() == old(bitmap.Contents())
    {
      inToOut.Set(ids);
    }

    /** Fills the inverse table of a sealed map; an enumeration of the valid ids is never refused. */
    method SetInverse(ids: seq<int>, ghost bits: seq<bool>)
      requires Separate() && outToIn.kind.Sealed? && |bits| == outCount <= MAX_DOMAIN
      requires Enumerates(ids, bits, 0)
      modifies outToIn, outToIn.dense
      ensures Separate() && outToIn.kind.Sealed? && Inverts(outToIn.Contents(), ids)
      ensures inToOut.Contents() == old(inToOut.Contents()) && bitmap.Contents() == old(bitmap.Contents())
    {
      BatchAcceptable(ids, bits, 0, 0);
      RepresentationIndependent(ids, outCount);
      var fault := outToIn.Set(ids, outCount);
      assert fault.None?;
    }

    /** Takes a reading to a sealed map. */
    method ApplySealed(reading: Reading, count: nat, ghost withIds: bool, ghost batch: Batch)
      requires Valid() && kind.SealedMap?
      requires ReadsAs(reading, count, batch) && (batch.Accepted? ==> GoodBatch(batch, 0))
      requires batch.Accepted? ==> reading.Read? == withIds
      modifies this`outCount, this`validCount, bitmap, inToOut, outToIn, outToIn.dense
      ensures Valid() && Resealed(old(State()), batch, withIds, State())
    {
      if reading.Read? {
        AddSealedIds(reading.bytes, count, reading.ids);
      } else if reading.ReadBits? {
        AddSealedValidity(reading.bytes, count);
      }
    }

    /** Everything that readers can load during the call is a sequence of protocol steps from the old map to
        the new one, so what is proved of its runs holds while this executes. */
    method AddGrowing(data: Input) returns (error: Option<AddError>, ghost trace: seq<Protocol.State>)
      requires Valid() && kind.GrowingMap?
      modifies this`outCount, this`validCount, inToOut.append, outToIn.dense.append, bitmap.Shared()
      ensures Valid() && State() == Grow(old(State()), data)
      ensures error == ErrorOf(Parse(GrowingMap, old(outCount), data))
      ensures Protocol.Leads(trace, old(State()), State())
    {
      Protocol.GrowLeads(State(), data);
      ghost var batch := Parse(GrowingMap, outCount, data);
      var reading := ReadGrowing(outCount, data, batch);
      error := ErrorIn(reading);
      SameError(reading, CountOf(data), batch);
      trace := ApplyGrowing(reading, CountOf(data), batch);
    }

    method AddSealed(data: Input, ghost batch: Batch) returns (error: Option<AddError>)
      requires Valid() && kind.SealedMap? && batch == Parse(SealedMap, outCount, data)
      modifies this`outCount, this`validCount, bitmap, inToOut, outToIn, outToIn.dense
      ensures Valid() && Resealed(old(State()), batch, data.Ids?, State())
      ensures error == ErrorOf(batch)
    {
      ghost var p := State();
      var reading := ReadSealed(outCount, data, batch);
      assert Valid() && State() == p;
      error := ErrorIn(reading);
      SameError(reading, CountOf(data), batch);
      ApplySealed(reading, CountOf(data), data.Ids?, batch);
    }

    /** Feeds one input to the map. A refused input changes nothing. */
    method AddFromData(data: Input) returns (error: Option<AddError>, ghost trace: seq<Protocol.State>)
      requires Valid()
      modifies Repr()
      ensures Valid() && kind == old(kind)
      ensures Added(old(State()), data, State())
      ensures error == ErrorOf(Parse(kind, old(outCount), data))
      ensures kind.GrowingMap? ==> Protocol.Leads(trace, old(State()), State())
    {
      trace := [];
      if kind.Disabled? {
        error := Some(NotEnabled);
      } else if kind.GrowingMap? {
        error, trace := AddGrowing(data);
      } else {
        error := AddSealed(data, Parse(SealedMap, outCount, data));
      }
    }

    // ---- FinalizeVectorIds ---------------------------------------------------------------

    method CollectValid() returns (ids: seq<int>)
      requires bitmap.Valid() && |bitmap.Contents()| == outCount
      ensures ids == SetBits(bitmap.Contents(), 0)
    {
      ids := [];
      ghost var bits := bitmap.Contents();
      for o := 0 to outCount
        invariant bitmap.Valid() && bitmap.Contents() == bits && ids == SetBits(bits[..o], 0)
      {
        ids := CollectOne(o, ids, bits);
      }
      assert bits[..outCount] == bits;
    }

    method CollectOne(o: nat, ids: seq<int>, ghost bits: seq<bool>) returns (more: seq<int>)
      requires bitmap.Valid() && bitmap.Contents() == bits && o < |bits| && ids == SetBits(bits[..o], 0)
      ensures bitmap.Valid() && bitmap.Contents() == bits && more == SetBits(bits[..o + 1], 0)
    {
      SetBitsStep(bits, 0, o);
      var valid := bitmap.PackedBit(o);
      more := if valid then ids + [o] else ids;
    }

    method DeriveMaps(ids: seq<int>)
      requires Valid() && kind.SealedMap? && outCount != 0
      requires inToOut.Contents() == [] && ids == SetBits(bitmap.Contents(), 0)
      modifies this`validCount, inToOut, outToIn, outToIn.dense
      ensures Valid() && Remapped(old(State()), ids, State())
    {
      validCount := |ids|;
      if |ids| != 0 {
        SetIds(ids);
        SetBitsEnumerate(bitmap.Contents(), 0);
        SetInverse(ids, bitmap.Contents());
      }
    }

    method StoreValidCount(count: nat)
      requires Valid() && (kind.GrowingMap? ==> count == validCount)
      modifies this`validCount
      ensures Valid() && State() == old(State()).(validCount := count)
    {
      validCount := count;
    }

    /** Derives the maps of a sealed map from its validity bitmap. */
    method FinalizeSealed()
      requires Valid() && kind.SealedMap?
      modifies this`validCount, inToOut, outToIn, outToIn.dense
      ensures Valid() && Finalized(old(State()), State())
    {
      if outCount == 0 {
        StoreValidCount(0);
      } else {
        DeriveIfMissing();
      }
    }

    method DeriveIfMissing()
      requires Valid() && kind.SealedMap? && outCount != 0
      modifies this`validCount, inToOut, outToIn, outToIn.dense
      ensures Valid()
      ensures if old(inToOut.Contents()) != [] then State() == old(State())
              else Remapped(old(State()), SetBits(bitmap.Contents(), 0), State())
    {
      if inToOut.IsEmpty() {
        var ids := CollectValid();
        DeriveMaps(ids);
      }
    }

    /** On a growing map, whose maps exist already, the same call finds nothing to derive. */
    method FinalizeGrowing()
      requires Valid() && kind.GrowingMap?
      modifies this`validCount
      ensures Valid() && State() == old(State())
    {
      if outCount == 0 {
        NothingToDerive(State());
        StoreValidCount(0);
      } else if inToOut.IsEmpty() {
        var ids := CollectValid();
        NothingToDerive(State());
        StoreValidCount(|ids|);
      }
    }

    method FinalizeVectorIds()
      requires Valid()
      modifies this`validCount, inToOut, outToIn, outToIn.dense
      ensures Valid()
      ensures if kind.SealedMap? then Finalized(old(State()), State()) else State() == old(State())
    {
      if kind.SealedMap? {
        FinalizeSealed();
      } else if kind.GrowingMap? {
        FinalizeGrowing();
      }
    }

    // ---- queries -------------------------------------------------------------------------

    method IsValidOutId(o: int) returns (r: bool)
      requires Valid()
      ensures r <==> IdMapSpec.IsValidOutId(State(), o)
    {
      if o < 0 || (outCount != 0 && o >= outCount) {
        return false;
      }
      if bitmap.IsEmpty() {
        return true;
      }
      r := bitmap.PackedBit(o);
    }

    /** `None` stands for a read beyond the stored ids, which the code does not check for: a sealed map that was
        published more than once may count ids that it does not store. */
    method MapInToOut(i: int) returns (o: Option<int>)
      requires Valid()
      ensures o.None? <==> ReadsPastIds(State(), i)
      ensures o.Some? ==> o.value == IdMapSpec.MapInToOut(State(), i)
    {
      if i < 0 || inToOut.IsEmpty() {
        return Some(i);
      }
      if i >= validCount {
        return Some(INVALID);
      }
      var stored := inToOut.Size();
      if i >= stored {
        return None;
      }
      var id := inToOut.Get(i);
      o := Some(id);
    }

    method MapOutToIn(o: int) returns (i: int)
      requires outToIn.Valid()
      ensures i == BackendId(outToIn.Contents(), outCount, o)
    {
      if o < 0 {
        return INVALID;
      }
      if outCount == 0 {
        return o;
      }
      if o > INT32_MAX || o >= outCount {
        return INVALID;
      }
      i := outToIn.Lookup(o);
    }

    /** Keeps the backend ids of the first `count` public ids that have a stored payload; refuses a missing
        list and then leaves the result as it was. */
    method CompactOutToIn(outIds: Option<seq<int>>, count: nat, before: seq<int>) returns (ok: bool, compact: seq<int>)
      requires outToIn.Valid() && (outIds.Some? ==> count <= |outIds.value|)
      ensures ok <==> count == 0 || outIds.Some?
      ensures !ok ==> compact == before
      ensures ok ==> compact == if count == 0 then [] else Compacted(outToIn.Contents(), outCount, outIds.value, count)
    {
      if count != 0 && outIds.None? {
        return false, before;
      }
      ok, compact := true, [];
      for k := 0 to count
        invariant outToIn.Valid()
        invariant compact == if k == 0 then [] else Compacted(outToIn.Contents(), outCount, outIds.value, k)
      {
        var i := MapOutToIn(outIds.value[k]);
        if i >= 0 {
          compact := compact + [i];
        }
      }
    }

    // ---- snapshots -------------------------------------------------------------------------

    /** The validity of the public ids published so far, as a bitmap that shares the append log. */
    method ValidBitmap() returns (copy: BitmapArray)
      requires Valid()
      ensures fresh(copy) && copy.Valid() && copy.append == bitmap.append && copy.kind == bitmap.kind
      ensures kind.GrowingMap? ==> copy.bitCount == Some(outCount)
      ensures copy.Contents() == State().bitmap
    {
      copy := bitmap.Prefix(outCount);
      assert bitmap.Contents()[..outCount] == bitmap.Contents();
    }

    /** The in-to-out ids published so far, as a store that shares the append-only array. */
    method InToOutIds() returns (ids: ArrayStore<int>)
      requires Valid()
      ensures fresh(ids) && ids.Valid() && ids.append == inToOut.append && ids.kind == inToOut.kind
      ensures ids.visible == Some(|ids.Contents()|)
      ensures ids.Contents() == inToOut.Contents()[..Min(validCount, |inToOut.Contents()|)]
    {
      ids := inToOut.Prefix(validCount);
    }

    /** A snapshot outlives every later append to the map it was taken from. */
    twostate lemma SnapshotOutlivesAppends(ids: ArrayStore<int>)
      requires old(Valid()) && Valid() && old(kind.GrowingMap?) && kind.GrowingMap?
      requires old(State()).inToOut <= State().inToOut && inToOut.append == old(inToOut.append)
      requires old(ids.Valid()) && unchanged(ids) && ids.append == inToOut.append
      requires ids.kind.Appendable? && ids.visible == Some(|old(ids.Contents())|)
      ensures ids.Valid() && ids.Contents() == old(ids.Contents())
    {
      ids.SnapshotUnchanged();
    }
  }

  /** What readers can load after each store of a batch, up to the counts. */
  ghost function Appended(bits: seq<bool>, ids: seq<int>, values: seq<int>, batch: Batch, valueBegin: nat,
                          validCount: nat, outCount: nat, p: MapState): seq<Protocol.State>
    requires batch.Accepted?
  {
    var longer, listed := bits + batch.bits, ids + batch.ids;
    var inverse := values + InverseOf(batch, |values|, valueBegin);
    [Protocol.State(longer, |bits|, ids, values, validCount, outCount, Protocol.Adding(batch, 1), p),
     Protocol.State(longer, |longer|, ids, values, validCount, outCount, Protocol.Adding(batch, 2), p),
     Protocol.State(longer, |longer|, listed, values, validCount, outCount, Protocol.Adding(batch, 3), p),
     Protocol.State(longer, |longer|, listed, inverse, validCount, outCount, Protocol.Adding(batch, 4), p)]
  }

  /** What readers can load when the valid count of `t` is stored and the public count is not yet. */
  ghost function Counted(t: MapState, outCount: nat, batch: Batch, p: MapState): Protocol.State
    requires t.outToIn.Dense?
  {
    Protocol.State(t.bitmap, |t.bitmap|, t.inToOut, t.outToIn.values, t.validCount, outCount,
                   Protocol.Adding(batch, 5), p)
  }

  lemma StoresMakeTrace(p: MapState, batch: Batch, stores: seq<Protocol.State>, counted: Protocol.State)
    requires GrowInv(p) && GoodBatch(batch, p.outCount)
    requires stores == Appended(p.bitmap, p.inToOut, p.outToIn.values, batch, p.validCount, p.validCount, p.outCount, p)
    requires counted == Counted(AppendBatch(p, batch), p.outCount, batch, p)
    ensures [Protocol.Quiet(p), Protocol.Partly(p, batch, 0)] + stores +
            [counted, Protocol.Quiet(AppendBatch(p, batch))]
         == Protocol.AddTrace(p, batch)
  {
    GrowInvBounds(p);
    Protocol.PartlyStates(p, batch);
  }

  /** The backend ids that the first `n` public ids lead to. */
  ghost function Compacted(table: Table, outCount: nat, outIds: seq<int>, n: nat): (r: seq<int>)
    requires n <= |outIds|
  {
    if n == 0 then []
    else
      var front, i := Compacted(table, outCount, outIds, n - 1), BackendId(table, outCount, outIds[n - 1]);
      if i >= 0 then front + [i] else front
  }

  /** Those of the first `n` public ids that lead to a backend id. */
  ghost function Leading(table: Table, outCount: nat, outIds: seq<int>, n: nat): set<nat>
    requires n <= |outIds|
  {
    set k: nat | k < n && BackendId(table, outCount, outIds[k]) >= 0
  }

  lemma LeadingStep(table: Table, outCount: nat, outIds: seq<int>, n: nat)
    requires n < |outIds|
    ensures |Leading(table, outCount, outIds, n + 1)|
         == |Leading(table, outCount, outIds, n)| + if BackendId(table, outCount, outIds[n]) >= 0 then 1 else 0
  {
    var lead := BackendId(table, outCount, outIds[n]) >= 0;
    assert Leading(table, outCount, outIds, n + 1)
        == Leading(table, outCount, outIds, n) + if lead then {n} else {};
  }

  lemma {:induction false} CompactedSize(table: Table, outCount: nat, outIds: seq<int>, n: nat)
    requires n <= |outIds|
    ensures |Compacted(table, outCount, outIds, n)| == |Leading(table, outCount, outIds, n)|
  {
    if n > 0 {
      CompactedSize(table, outCount, outIds, n - 1);
      LeadingStep(table, outCount, outIds, n - 1);
    }
  }

  /** The result keeps the order: the backend id of public id number `k` stands behind those of the public ids
      before it that have one. */
  lemma {:induction false} CompactedAt(table: Table, outCount: nat, outIds: seq<int>, n: nat, k: nat)
    requires k < n <= |outIds| && BackendId(table, outCount, outIds[k]) >= 0
    ensures |Compacted(table, outCount, outIds, n)| == |Leading(table, outCount, outIds, n)|
    ensures |Leading(table, outCount, outIds, k)| < |Leading(table, outCount, outIds, n)|
    ensures Compacted(table, outCount, outIds, n)[|Leading(table, outCount, outIds, k)|]
         == BackendId(table, outCount, outIds[k])
  {
    CompactedSize(table, outCount, outIds, n);
    CompactedSize(table, outCount, outIds, n - 1);
    LeadingStep(table, outCount, outIds, n - 1);
    if k < n - 1 {
      CompactedAt(table, outCount, outIds, n - 1, k);
    }
  }
}
