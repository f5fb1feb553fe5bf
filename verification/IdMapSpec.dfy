/** What an id map does, as functions of its abstract state. */
module IdMapSpec {
  import opened Bits
  import opened AdaptiveStores
  import opened IdDomain

  datatype MapKind = Disabled | SealedMap | GrowingMap

  /** The public ids must fit in an `int32`. */
  const MAX_DOMAIN := INT32_MAX + 1

  datatype MapState = MapState(
    kind: MapKind,
    /** Validity of the public ids `[0, outCount)`. */
    bitmap: seq<bool>,
    inToOut: seq<int>,
    outToIn: Table,
    outCount: nat,
    validCount: nat)

  const FRESH_GROWING := MapState(GrowingMap, [], [], Dense([]), 0, 0)
  const FRESH_SEALED := MapState(SealedMap, [], [], Dense([]), 0, 0)

  predicate HasData(s: MapState) {
    s.outCount != 0 || s.validCount != 0 || s.inToOut != [] || s.bitmap != []
  }

  /** The type of a map can be chosen until it holds data. */
  predicate TypeSet(s: MapState, kind: MapKind, ok: bool, t: MapState) {
    if s.kind == kind || HasData(s) then t == s && (ok <==> s.kind == kind)
    else ok && t == MapState(kind, [], [], Dense([]), 0, 0)
  }

  // ---- input ---------------------------------------------------------------------

  /** `None` stands for a null pointer. */
  datatype IdMapData =
    | NoData
    | PackedBitmap(bytes: Option<seq<Byte>>, outCount: nat)
    | BoolArray(valid: Option<seq<bool>>, outCount: nat)
    | Ids(outIds: Option<seq<int>>, inCount: nat, outCount: nat)

  /** The buffers are as long as the caller says. */
  predicate Sized(data: IdMapData) {
    match data
    case NoData => true
    case PackedBitmap(bytes, outCount) => bytes.Some? ==> ByteSize(outCount) <= |bytes.value|
    case BoolArray(valid, outCount) => valid.Some? ==> outCount <= |valid.value|
    case Ids(outIds, inCount, _) => outIds.Some? ==> inCount <= |outIds.value|
  }

  type Input = data: IdMapData | Sized(data) witness NoData

  datatype AddError =
    | NotEnabled
    | UnsupportedFormat
    | EmptyPublicDomain
    | NullInput
    | PublicIdOverflow
    | NegativeId
    | IdOutOfRange
    | DuplicateId

  /** `CheckPublicDomain` lets `count` more ids through. */
  predicate FitsDomain(oldOutCount: nat, count: nat) {
    count == 0 || (oldOutCount <= INT32_MAX && count - 1 <= INT32_MAX - oldOutCount)
  }

  /** The batch bitmap after marking the first `n` ids, or the exception the first bad id throws. */
  datatype Marking = Marked(bits: seq<bool>) | Bad(error: AddError)

  function Zeros(n: nat): (r: seq<bool>)
    ensures |r| == n && IsZero(r)
  {
    if n == 0 then [] else Zeros(n - 1) + [false]
  }

  function Mark(outIds: seq<int>, n: nat, outCount: nat): (r: Marking)
    requires n <= |outIds|
    ensures r.Marked? ==> |r.bits| == outCount
  {
    if n == 0 then Marked(Zeros(outCount))
    else
      var before := Mark(outIds, n - 1, outCount);
      if before.Bad? then before
      else
        var id := outIds[n - 1];
        if id < 0 then Bad(NegativeId)
        else if id >= outCount then Bad(IdOutOfRange)
        else if before.bits[id] then Bad(DuplicateId)
        else Marked(before.bits[id := true])
  }

  function Shifted(ids: seq<int>, base: nat): (r: seq<int>)
    ensures |r| == |ids| && forall i :: 0 <= i < |r| ==> r[i] == ids[i] + base
  {
    if |ids| == 0 then [] else Shifted(ids[..|ids| - 1], base) + [ids[|ids| - 1] + base]
  }

  /** What one input amounts to: nothing, an exception, or validity bits for the next public ids with
      the list of valid ones. */
  datatype Batch = Nothing | Refused(error: AddError) | Accepted(bits: seq<bool>, ids: seq<int>)

  function Parse(kind: MapKind, oldOutCount: nat, data: Input): (r: Batch)
  {
    var base := if kind.GrowingMap? then oldOutCount else 0;
    if kind.Disabled? then Refused(NotEnabled)
    else match data
      case NoData => Refused(UnsupportedFormat)
      case Ids(outIds, inCount, outCount) =>
        if outCount == 0 then if inCount != 0 then Refused(EmptyPublicDomain) else Nothing
        else if inCount != 0 && outIds.None? then Refused(NullInput)
        else if !FitsDomain(base, outCount) then Refused(PublicIdOverflow)
        else
          var ids := if inCount == 0 then [] else outIds.value[..inCount];
          (match Mark(ids, inCount, outCount)
           case Bad(error) => Refused(error)
           case Marked(bits) => Accepted(bits, Shifted(ids, base)))
      case PackedBitmap(bytes, outCount) =>
        if outCount == 0 then Nothing
        else if bytes.None? then Refused(NullInput)
        else if !FitsDomain(base, outCount) then Refused(PublicIdOverflow)
        else
          var bits := Unpack(bytes.value, outCount);
          Accepted(bits, SetBits(bits, base))
      case BoolArray(valid, outCount) =>
        if outCount == 0 then Nothing
        else if valid.None? then Refused(NullInput)
        else if !FitsDomain(base, outCount) then Refused(PublicIdOverflow)
        else
          var bits := valid.value[..outCount];
          Accepted(bits, SetBits(bits, base))
  }

  /** Marking accepts exactly the lists of distinct ids inside the domain, and the bits it sets are
      the ids it was given. */
  lemma {:induction false} MarkEnumerates(outIds: seq<int>, n: nat, outCount: nat)
    requires n <= |outIds|
    ensures Mark(outIds, n, outCount).Marked?
       <==> (forall i :: 0 <= i < n ==> InRange(outIds, i, 0, outCount)) && Distinct(outIds, n)
    ensures Mark(outIds, n, outCount).Marked? ==> Enumerates(outIds[..n], Mark(outIds, n, outCount).bits, 0)
  {
    if n > 0 {
      MarkEnumerates(outIds, n - 1, outCount);
      var before := Mark(outIds, n - 1, outCount);
      var front, id := outIds[..n - 1], outIds[n - 1];
      assert outIds[..n] == front + [id];
      assert InRange(outIds, n - 1, 0, outCount) <==> 0 <= id < outCount;
      if before.Marked? {
        DistinctOneMore(outIds, n - 1);
        if 0 <= id < outCount {
          assert Covered(front, before.bits, 0, id);
          if before.bits[id] {
            var i :| 0 <= i < |front| && front[i] == id;
            assert outIds[i] == outIds[n - 1];
          } else {
            MarkOne(front, before.bits, id);
            forall v | 0 <= v < n - 1 ensures outIds[v] != id {
              assert Hits(front, before.bits, 0, v);
            }
          }
        }
      }
    }
  }

  lemma MarkOne(ids: seq<int>, bits: seq<bool>, id: nat)
    requires Enumerates(ids, bits, 0) && id < |bits| && !bits[id]
    ensures Enumerates(ids + [id], bits[id := true], 0)
  {
    var all, next := ids + [id], bits[id := true];
    forall i: nat | i < |all| ensures Hits(all, next, 0, i) && (i < |ids| ==> all[i] != id) {
      if i < |ids| { assert Hits(ids, bits, 0, i); }
    }
    forall v: nat, w: nat | v < w < |all| ensures Differ(all, v, w) {
      assert w < |ids| ==> Differ(ids, v, w);
    }
    forall k: nat | k < |next| ensures Covered(all, next, 0, k) {
      assert Covered(ids, bits, 0, k);
    }
  }

  lemma ShiftedEnumerates(ids: seq<int>, bits: seq<bool>, base: nat)
    requires Enumerates(ids, bits, 0)
    ensures Enumerates(Shifted(ids, base), bits, base)
  {
    var moved := Shifted(ids, base);
    forall i: nat | i < |moved| ensures Hits(moved, bits, base, i) {
      assert Hits(ids, bits, 0, i);
    }
    forall v: nat, w: nat | v < w < |moved| ensures Differ(moved, v, w) {
      assert Differ(ids, v, w);
    }
    forall k: nat | k < |bits| ensures Covered(moved, bits, base, k) {
      assert Covered(ids, bits, 0, k);
      if bits[k] {
        var i :| 0 <= i < |ids| && ids[i] == k;
        assert moved[i] == base + k;
      }
    }
  }

  /** A batch for the public ids from `base` on: it is non-empty, fits the domain, and its id list
      enumerates its validity bits. */
  ghost predicate GoodBatch(batch: Batch, base: nat) {
    && batch.Accepted?
    && 0 < |batch.bits| && base + |batch.bits| <= MAX_DOMAIN
    && Enumerates(batch.ids, batch.bits, base)
  }

  /** Whatever the input format, what is accepted is a good batch. */
  lemma ParseEnumerates(kind: MapKind, oldOutCount: nat, data: Input)
    requires Parse(kind, oldOutCount, data).Accepted?
    ensures GoodBatch(Parse(kind, oldOutCount, data), if kind.GrowingMap? then oldOutCount else 0)
  {
    var base := if kind.GrowingMap? then oldOutCount else 0;
    if data.Ids? {
      var ids := if data.inCount == 0 then [] else data.outIds.value[..data.inCount];
      MarkEnumerates(ids, data.inCount, data.outCount);
      assert ids[..data.inCount] == ids;
      ShiftedEnumerates(ids, Mark(ids, data.inCount, data.outCount).bits, base);
    } else {
      SetBitsEnumerate(Parse(kind, oldOutCount, data).bits, base);
    }
  }

  // ---- what is accepted, in terms of the input ------------------------------------------------

  /** Id number `j` is the first that cannot be taken, for the reason `error`. */
  ghost predicate FirstBadId(outIds: seq<int>, outCount: nat, j: nat, error: AddError)
    requires j < |outIds|
  {
    && (forall i :: 0 <= i < j ==> InRange(outIds, i, 0, outCount)) && Distinct(outIds, j)
    && match error
       case NegativeId => outIds[j] < 0
       case IdOutOfRange => outIds[j] >= outCount
       case DuplicateId => 0 <= outIds[j] < outCount && outIds[j] in outIds[..j]
       case _ => false
  }

  /** Marking stops at the first bad id and reports it. */
  lemma {:induction false} MarkRefuses(outIds: seq<int>, n: nat, outCount: nat) returns (j: nat)
    requires n <= |outIds| && Mark(outIds, n, outCount).Bad?
    ensures j < n && FirstBadId(outIds, outCount, j, Mark(outIds, n, outCount).error)
  {
    if Mark(outIds, n - 1, outCount).Bad? {
      j := MarkRefuses(outIds, n - 1, outCount);
    } else {
      j := n - 1;
      MarkEnumerates(outIds, j, outCount);
      if 0 <= outIds[j] < outCount {
        assert Covered(outIds[..j], Mark(outIds, j, outCount).bits, 0, outIds[j]);
      }
    }
  }

  /** The ids of an `IDS` input, as the caller gave them. */
  ghost function GivenIds(data: Input): (ids: seq<int>)
    requires data.Ids? && (data.inCount > 0 ==> data.outIds.Some?)
    ensures |ids| == data.inCount && (data.inCount > 0 ==> ids == data.outIds.value[..data.inCount])
  {
    if data.inCount == 0 then [] else data.outIds.value[..data.inCount]
  }

  /** An enabled map accepts an `IDS` input exactly when it announces public ids that fit, its list is there, and
      the ids are different and inside what it announces. The ids keep their order, and the bits say which public
      ids are listed. */
  lemma ParseIds(kind: MapKind, oldOutCount: nat, data: Input)
    requires !kind.Disabled? && data.Ids?
    ensures var base, batch := if kind.GrowingMap? then oldOutCount else 0, Parse(kind, oldOutCount, data);
            && (batch.Accepted? <==>
                  && data.outCount > 0 && base + data.outCount <= MAX_DOMAIN && (data.inCount > 0 ==> data.outIds.Some?)
                  && (forall i :: 0 <= i < data.inCount ==> InRange(GivenIds(data), i, 0, data.outCount))
                  && Distinct(GivenIds(data), data.inCount))
            && (batch.Accepted? ==>
                  && |batch.ids| == data.inCount && |batch.bits| == data.outCount
                  && (forall i :: 0 <= i < data.inCount ==> batch.ids[i] == base + data.outIds.value[i])
                  && (forall p :: 0 <= p < data.outCount ==> (batch.bits[p] <==> p in GivenIds(data))))
  {
    if data.outCount > 0 && (data.inCount > 0 ==> data.outIds.Some?) {
      var ids := GivenIds(data);
      MarkEnumerates(ids, data.inCount, data.outCount);
      assert ids[..data.inCount] == ids;
      var marking := Mark(ids, data.inCount, data.outCount);
      if marking.Marked? {
        forall p | 0 <= p < data.outCount ensures marking.bits[p] <==> p in ids {
          assert Covered(ids, marking.bits, 0, p);
          if p in ids {
            var i :| 0 <= i < |ids| && ids[i] == p;
            assert Hits(ids, marking.bits, 0, i);
          }
        }
      }
    }
  }

  /** What is refused, and why: the first of these that applies. */
  lemma ParseRefuses(kind: MapKind, oldOutCount: nat, data: Input) returns (bad: nat)
    ensures var base, batch := if kind.GrowingMap? then oldOutCount else 0, Parse(kind, oldOutCount, data);
            if kind.Disabled? then batch == Refused(NotEnabled)
            else if data.NoData? then batch == Refused(UnsupportedFormat)
            else if data.outCount == 0 then
              batch == if data.Ids? && data.inCount > 0 then Refused(EmptyPublicDomain) else Nothing
            else if IsNull(data) then batch == Refused(NullInput)
            else if base + data.outCount > MAX_DOMAIN then batch == Refused(PublicIdOverflow)
            else
              batch.Accepted? || (batch.Refused? && data.Ids? && bad < data.inCount
                                  && FirstBadId(GivenIds(data), data.outCount, bad, batch.error))
  {
    bad := 0;
    if !kind.Disabled? && data.Ids? && data.outCount > 0 && !IsNull(data) {
      var ids := GivenIds(data);
      if Mark(ids, data.inCount, data.outCount).Bad? {
        bad := MarkRefuses(ids, data.inCount, data.outCount);
      }
    }
  }

  /** A buffer that is needed is missing. */
  predicate IsNull(data: Input) {
    match data
    case NoData => false
    case PackedBitmap(bytes, _) => bytes.None?
    case BoolArray(valid, _) => valid.None?
    case Ids(outIds, inCount, _) => inCount > 0 && outIds.None?
  }

  // ---- operations ------------------------------------------------------------------

  /** The part of the inverse table that a batch appends. */
  ghost function InverseOf(batch: Batch, base: nat, valueBegin: nat): (r: seq<int>)
    requires batch.Accepted?
  {
    var filled := FillDense(batch.ids, |batch.ids|, base, base + |batch.bits|, valueBegin);
    if filled.Filled? then filled.value else []
  }

  /** The inverse table takes a good batch. */
  lemma InverseFills(batch: Batch, base: nat, valueBegin: nat)
    requires GoodBatch(batch, base) && valueBegin <= base
    ensures FillsTo(batch.ids, base, base + |batch.bits|, valueBegin, InverseOf(batch, base, valueBegin))
    ensures |InverseOf(batch, base, valueBegin)| == |batch.bits|
  {
    BatchAcceptable(batch.ids, batch.bits, base, valueBegin);
    FillDenseInverts(batch.ids, |batch.ids|, base, base + |batch.bits|, valueBegin);
  }

  ghost function AppendBatch(s: MapState, batch: Batch): (t: MapState)
    requires batch.Accepted? && s.outToIn.Dense?
  {
    MapState(s.kind, s.bitmap + batch.bits, s.inToOut + batch.ids,
             Dense(s.outToIn.values + InverseOf(batch, s.outCount, s.validCount)),
             s.outCount + |batch.bits|, s.validCount + |batch.ids|)
  }

  ghost function Extended(s: MapState, batch: Batch): (t: MapState)
    requires s.outToIn.Dense?
  {
    if batch.Accepted? then AppendBatch(s, batch) else s
  }

  /** `AddFromData` on a growing map. */
  ghost function Grow(s: MapState, data: Input): (t: MapState)
    requires s.outToIn.Dense?
  {
    Extended(s, Parse(GrowingMap, s.outCount, data))
  }

  /** A sealed map that records validity only; its maps are derived later. */
  function SealBits(s: MapState, bits: seq<bool>): (t: MapState) {
    s.(bitmap := bits, outCount := |bits|, validCount := Pop(bits))
  }

  /** `t` is `s` with its two maps replaced by `ids` and some table, sparse or dense, that inverts
      them. */
  ghost predicate Remapped(s: MapState, ids: seq<int>, t: MapState) {
    && t == s.(validCount := |ids|, inToOut := ids, outToIn := t.outToIn)
    && (if ids == [] then t.outToIn == s.outToIn else Inverts(t.outToIn, ids))
  }

  /** A sealed map may go from `s` to `t` on this batch, which replaces its bitmap and, when the ids
      were given outright, its maps. */
  ghost predicate Resealed(s: MapState, batch: Batch, withIds: bool, t: MapState) {
    if !batch.Accepted? then t == s
    else if withIds then Remapped(SealBits(s, batch.bits), batch.ids, t)
    else t == SealBits(s, batch.bits)
  }

  /** `AddFromData` may lead from `s` to `t`. */
  ghost predicate Added(s: MapState, data: Input, t: MapState) {
    var batch := Parse(s.kind, s.outCount, data);
    if s.kind.GrowingMap? then s.outToIn.Dense? && t == Extended(s, batch)
    else Resealed(s, batch, data.Ids?, t)
  }

  /** `FinalizeVectorIds` may lead a sealed map from `s` to `t`. */
  ghost predicate Finalized(s: MapState, t: MapState) {
    if s.outCount == 0 || s.bitmap == [] then t == s.(validCount := 0)
    else if s.inToOut != [] then t == s
    else Remapped(s, SetBits(s.bitmap, 0), t)
  }

  // ---- queries ---------------------------------------------------------------------

  predicate IsValidOutId(s: MapState, o: int) {
    && o >= 0
    && (s.outCount != 0 ==> o < s.outCount)
    && (s.bitmap == [] || (o < |s.bitmap| && s.bitmap[o]))
  }

  function MapInToOut(s: MapState, i: int): int {
    if i < 0 || s.inToOut == [] then i
    else if i < s.validCount && i < |s.inToOut| then s.inToOut[i]
    else INVALID
  }

  /** The lookup would read beyond the stored ids, which the code does not check. */
  predicate ReadsPastIds(s: MapState, i: int) {
    s.inToOut != [] && |s.inToOut| <= i < s.validCount
  }

  function MapOutToIn(s: MapState, o: int): int {
    BackendId(s.outToIn, s.outCount, o)
  }

  function BackendId(table: Table, outCount: nat, o: int): int {
    if o < 0 then INVALID
    else if outCount == 0 then o
    else if o > INT32_MAX || o >= outCount then INVALID
    else Get(table, o)
  }
}
