/** Reading the three input formats of an id map into a packed batch bitmap and a list of public ids. */
module IdMapInput {
  import opened Bits
  import opened IdMapSpec

  const ZERO_BYTE: Byte := [false, false, false, false, false, false, false, false]

  function ZeroBytes(n: nat): (r: seq<Byte>)
    ensures |r| == n && forall i :: 0 <= i < n ==> r[i] == ZERO_BYTE
  {
    if n == 0 then [] else ZeroBytes(n - 1) + [ZERO_BYTE]
  }

  function SetPackedBit(bytes: seq<Byte>, bit: nat): (r: seq<Byte>)
    requires bit / 8 < |bytes|
    ensures |r| == |bytes|
  {
    bytes[bit / 8 := bytes[bit / 8][bit % 8 := true]]
  }

  lemma SetPackedBitBits(bytes: seq<Byte>, bit: nat, count: nat)
    requires bit < count && ByteSize(count) <= |bytes|
    ensures Unpack(SetPackedBit(bytes, bit), count) == Unpack(bytes, count)[bit := true]
  {
    var r := SetPackedBit(bytes, bit);
    forall k: nat | k < count ensures BitAt(r, k) == (k == bit || BitAt(bytes, k)) {
      if k / 8 == bit / 8 && k % 8 == bit % 8 {
        assert k == 8 * (k / 8) + k % 8 == bit;
      }
    }
  }

  lemma ZeroBytesBits(count: nat)
    ensures Unpack(ZeroBytes(ByteSize(count)), count) == Zeros(count)
  {
  }

  lemma {:induction false} BadIdStays(outIds: seq<int>, n: nat, outCount: nat)
    requires n <= |outIds| && Mark(outIds, n, outCount).Bad?
    ensures Mark(outIds, |outIds|, outCount) == Mark(outIds, n, outCount)
    decreases |outIds| - n
  {
    if n < |outIds| { BadIdStays(outIds, n + 1, outCount); }
  }

  /** The `IDS` format: each id must be in the domain and new. */
  method ReadIds(outIds: seq<int>, outCount: nat, base: nat)
    returns (error: Option<AddError>, ids: seq<int>, bytes: seq<Byte>)
    ensures match Mark(outIds, |outIds|, outCount)
            case Bad(e) => error == Some(e)
            case Marked(bits) =>
              && error.None? && ids == Shifted(outIds, base)
              && |bytes| == ByteSize(outCount) && Unpack(bytes, outCount) == bits
  {
    ids := [];
    bytes := ZeroBytes(ByteSize(outCount));
    ZeroBytesBits(outCount);
    for i := 0 to |outIds|
      invariant |bytes| == ByteSize(outCount)
      invariant Mark(outIds, i, outCount) == Marked(Unpack(bytes, outCount))
      invariant ids == Shifted(outIds[..i], base)
    {
      var id := outIds[i];
      if id < 0 {
        BadIdStays(outIds, i + 1, outCount);
        return Some(NegativeId), ids, bytes;
      }
      if id >= outCount {
        BadIdStays(outIds, i + 1, outCount);
        return Some(IdOutOfRange), ids, bytes;
      }
      if BitAt(bytes, id) {
        BadIdStays(outIds, i + 1, outCount);
        return Some(DuplicateId), ids, bytes;
      }
      assert outIds[..i + 1][..i] == outIds[..i];
      ids := ids + [base + id];
      SetPackedBitBits(bytes, id, outCount);
      bytes := SetPackedBit(bytes, id);
    }
    assert outIds[..|outIds|] == outIds;
    error := None;
  }

  /** The `PACKED_BITMAP` format: the valid ids in ascending order, padding ignored. */
  method ReadBitmap(bytes: seq<Byte>, outCount: nat, base: nat) returns (ids: seq<int>)
    requires ByteSize(outCount) <= |bytes|
    ensures ids == SetBits(Unpack(bytes, outCount), base)
  {
    ids := [];
    ghost var bits := Unpack(bytes, outCount);
    for k := 0 to outCount
      invariant ids == SetBits(bits[..k], base)
    {
      SetBitsStep(bits, base, k);
      if BitAt(bytes, k) {
        ids := ids + [base + k];
      }
    }
    assert bits[..outCount] == bits;
  }

  /** The `BOOL_ARRAY` format. */
  method ReadBools(valid: seq<bool>, outCount: nat, base: nat) returns (ids: seq<int>)
    requires outCount <= |valid|
    ensures ids == SetBits(valid[..outCount], base)
  {
    ids := [];
    for k := 0 to outCount
      invariant ids == SetBits(valid[..k], base)
    {
      SetBitsStep(valid, base, k);
      if valid[k] {
        ids := ids + [base + k];
      }
    }
  }

  method PackBools(valid: seq<bool>, outCount: nat) returns (bytes: seq<Byte>)
    requires outCount <= |valid|
    ensures |bytes| == ByteSize(outCount) && Unpack(bytes, outCount) == valid[..outCount]
  {
    bytes := ZeroBytes(ByteSize(outCount));
    ZeroBytesBits(outCount);
    for k := 0 to outCount
      invariant |bytes| == ByteSize(outCount)
      invariant forall i :: 0 <= i < outCount ==> Unpack(bytes, outCount)[i] == (i < k && valid[i])
    {
      if valid[k] {
        SetPackedBitBits(bytes, k, outCount);
        bytes := SetPackedBit(bytes, k);
      }
    }
  }

  /** Copies the first `n` bytes from `bytes[at]` into a zeroed word. */
  function LoadTail(bytes: seq<Byte>, at: nat, n: nat): (w: Word)
    requires n <= 8 && at + n <= |bytes|
  {
    seq(WORD_BITS, k requires 0 <= k < WORD_BITS => k / 8 < n && bytes[at + k / 8][k % 8])
  }

  lemma FullWordCounts(bytes: seq<Byte>, i: nat, outCount: nat)
    requires ByteSize(outCount) <= |bytes| && 64 * i + 64 <= outCount
    ensures 8 * i + 8 <= |bytes|
    ensures Pop(Unpack(bytes, outCount)[..64 * i + 64])
         == Pop(Unpack(bytes, outCount)[..64 * i]) + Pop(LoadWord(bytes, 8 * i))
  {
    var bits := Unpack(bytes, outCount);
    LoadWordBits(bytes, 8 * i, outCount);
    PopSplit(bits, 0, 64 * i, 64 * i + 64);
    assert bits[0..64 * i] == bits[..64 * i] && bits[0..64 * i + 64] == bits[..64 * i + 64];
  }

  lemma TailWordCounts(bytes: seq<Byte>, words: nat, tail: nat)
    requires 0 < tail < 64 && ByteSize(64 * words + tail) <= |bytes|
    ensures 8 * words + ByteSize(tail) <= |bytes|
    ensures Pop(Unpack(bytes, 64 * words + tail))
         == Pop(Unpack(bytes, 64 * words + tail)[..64 * words])
          + Pop(And(Mask(64, 0, tail), LoadTail(bytes, 8 * words, ByteSize(tail))))
  {
    var bits, word := Unpack(bytes, 64 * words + tail), LoadTail(bytes, 8 * words, ByteSize(tail));
    PopMasked(word, 0, tail);
    forall k | 0 <= k < tail ensures word[k] == bits[64 * words + k] {
      assert (64 * words + k) / 8 == 8 * words + k / 8 && (64 * words + k) % 8 == k % 8;
    }
    assert word[0..tail] == bits[64 * words..];
    PopConcat(bits[..64 * words], bits[64 * words..]);
    assert bits == bits[..64 * words] + bits[64 * words..];
  }

  /** Counts the valid ids a 64-bit word at a time; padding bits above `outCount` do not count even
      when the buffer holds garbage there. */
  method CountPackedBitmap(bytes: seq<Byte>, outCount: nat) returns (count: nat)
    requires ByteSize(outCount) <= |bytes|
    ensures count == Pop(Unpack(bytes, outCount))
  {
    count := 0;
    if outCount == 0 {
      return;
    }
    var fullWords, tailBits := outCount / 64, outCount % 64;
    for i := 0 to fullWords
      invariant count == Pop(Unpack(bytes, outCount)[..64 * i])
    {
      FullWordCounts(bytes, i, outCount);
      count := count + Pop(LoadWord(bytes, 8 * i));
    }
    if tailBits != 0 {
      TailWordCounts(bytes, fullWords, tailBits);
      var word := LoadTail(bytes, 8 * fullWords, ByteSize(tailBits));
      count := count + Pop(And(Mask(64, 0, tailBits), word));
    } else {
      assert Unpack(bytes, outCount)[..outCount] == Unpack(bytes, outCount);
    }
  }

  /** `CheckPublicDomain`: some new id would not be an `int32`. */
  predicate Overflows(oldOutCount: nat, count: nat)
    ensures Overflows(oldOutCount, count) <==> count > 0 && oldOutCount + count > MAX_DOMAIN
    ensures Overflows(oldOutCount, count) <==> !FitsDomain(oldOutCount, count)
  {
    count != 0 && (oldOutCount > 0x7FFF_FFFF || count - 1 > 0x7FFF_FFFF - oldOutCount)
  }

  /** An input as the appends want it: packed bytes and, when the format calls for it, the
      list of valid public ids. */
  datatype Reading =
    | Skip
    | Throw(error: AddError)
    | Read(bytes: seq<Byte>, ids: seq<int>)
    | ReadBits(bytes: seq<Byte>)

  /** The reading says the same as the parsed batch. */
  ghost predicate ReadsAs(reading: Reading, count: nat, batch: Batch) {
    match reading
    case Skip => batch.Nothing?
    case Throw(error) => batch == Refused(error)
    case Read(bytes, ids) => ByteSize(count) <= |bytes| && batch == Accepted(Unpack(bytes, count), ids)
    case ReadBits(bytes) => ByteSize(count) <= |bytes| && batch.Accepted? && batch.bits == Unpack(bytes, count)
  }

  /** The error of a refused batch. */
  function ErrorOf(batch: Batch): Option<AddError> {
    if batch.Refused? then Some(batch.error) else None
  }

  function ErrorIn(reading: Reading): Option<AddError> {
    if reading.Throw? then Some(reading.error) else None
  }

  lemma SameError(reading: Reading, count: nat, batch: Batch)
    requires ReadsAs(reading, count, batch)
    ensures ErrorIn(reading) == ErrorOf(batch)
  {
  }

  function CountOf(data: Input): nat {
    if data.NoData? then 0 else data.outCount
  }

  method ReadGrowing(oldOutCount: nat, data: Input, ghost batch: Batch) returns (reading: Reading)
    requires batch == Parse(GrowingMap, oldOutCount, data)
    ensures ReadsAs(reading, CountOf(data), batch) && !reading.ReadBits?
    ensures reading.Read? ==> GoodBatch(batch, oldOutCount)
  {
    if batch.Accepted? {
      ParseEnumerates(GrowingMap, oldOutCount, data);
    }
    match data {
      case NoData =>
        reading := Throw(UnsupportedFormat);
      case Ids(outIds, inCount, outCount) =>
        reading := ReadIdsInput(GrowingMap, oldOutCount, oldOutCount, data);
      case PackedBitmap(bytes, outCount) =>
        if outCount == 0 {
          return Skip;
        }
        if bytes.None? {
          return Throw(NullInput);
        }
        if Overflows(oldOutCount, outCount) {
          return Throw(PublicIdOverflow);
        }
        var ids := ReadBitmap(bytes.value, outCount, oldOutCount);
        reading := Read(bytes.value, ids);
      case BoolArray(valid, outCount) =>
        if outCount == 0 {
          return Skip;
        }
        if valid.None? {
          return Throw(NullInput);
        }
        var packed := PackBools(valid.value, outCount);
        if Overflows(oldOutCount, outCount) {
          return Throw(PublicIdOverflow);
        }
        var ids := ReadBools(valid.value, outCount, oldOutCount);
        reading := Read(packed, ids);
    }
  }

  method ReadIdsInput(kind: MapKind, oldOutCount: nat, base: nat, data: Input) returns (reading: Reading)
    requires data.Ids? && !kind.Disabled? && base == if kind.GrowingMap? then oldOutCount else 0
    ensures ReadsAs(reading, data.outCount, Parse(kind, oldOutCount, data)) && !reading.ReadBits?
  {
    if data.outCount == 0 {
      return if data.inCount != 0 then Throw(EmptyPublicDomain) else Skip;
    }
    if data.inCount != 0 && data.outIds.None? {
      return Throw(NullInput);
    }
    if Overflows(base, data.outCount) {
      return Throw(PublicIdOverflow);
    }
    var outIds := if data.inCount == 0 then [] else data.outIds.value[..data.inCount];
    var error, ids, bytes := ReadIds(outIds, data.outCount, base);
    reading := if error.Some? then Throw(error.value) else Read(bytes, ids);
  }

  /** A sealed map takes the bits of the two validity formats as they are. */
  method ReadSealed(oldOutCount: nat, data: Input, ghost batch: Batch) returns (reading: Reading)
    requires batch == Parse(SealedMap, oldOutCount, data)
    ensures ReadsAs(reading, CountOf(data), batch)
    ensures batch.Accepted? ==> GoodBatch(batch, 0) && reading.Read? == data.Ids?
  {
    if batch.Accepted? {
      ParseEnumerates(SealedMap, oldOutCount, data);
    }
    if data.NoData? {
      return Throw(UnsupportedFormat);
    }
    if data.Ids? {
      reading := ReadIdsInput(SealedMap, oldOutCount, 0, data);
      return;
    }
    if data.outCount == 0 {
      return Skip;
    }
    var bytes;
    if data.PackedBitmap? {
      if data.bytes.None? {
        return Throw(NullInput);
      }
      bytes := data.bytes.value;
    } else {
      if data.valid.None? {
        return Throw(NullInput);
      }
      bytes := PackBools(data.valid.value, data.outCount);
    }
    reading := if Overflows(0, data.outCount) then Throw(PublicIdOverflow) else ReadBits(bytes);
  }
}
