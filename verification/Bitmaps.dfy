/** Packed validity bitmaps: a sealed byte array with a masked tail, or a log of bit-oriented batches
    found by binary search. */
module Bitmaps {
  import opened Bits
  import opened Chunks
  import opened AppendProtocol
  import opened AppendArray
  import opened ArrayStores

  /** One appended batch: `bitCount` bits that start at `bitBegin`, with arbitrary padding. */
  datatype BitmapRecord = BitmapRecord(bitBegin: nat, bitCount: nat, bytes: seq<Byte>) {
    predicate Contains(bit: nat) {
      bitBegin <= bit < bitBegin + bitCount
    }

    predicate Test(bit: nat)
      requires Contains(bit) && |bytes| == ByteSize(bitCount)
    {
      BitAt(bytes, bit - bitBegin)
    }

  }

  type Record = r: BitmapRecord | |r.bytes| == ByteSize(r.bitCount) witness BitmapRecord(0, 0, [])

  // ---- the bits a log of records stands for -----------------------------------

  ghost function LogBits(records: seq<Record>): (bits: seq<bool>)
  {
    if |records| == 0 then []
    else
      var last := records[|records| - 1];
      LogBits(records[..|records| - 1]) + Unpack(last.bytes, last.bitCount)
  }

  /** Each record starts where the bits of the earlier ones end. */
  ghost predicate Tiled(records: seq<Record>) {
    forall i :: 0 <= i < |records| ==> records[i].bitBegin == |LogBits(records[..i])|
  }

  lemma TiledAppend(records: seq<Record>, record: Record)
    requires Tiled(records) && record.bitBegin == |LogBits(records)|
    ensures Tiled(records + [record])
    ensures LogBits(records + [record]) == LogBits(records) + Unpack(record.bytes, record.bitCount)
  {
    var all := records + [record];
    assert all[..|records|] == records;
    forall i | 0 <= i < |all| ensures all[i].bitBegin == |LogBits(all[..i])| {
      if i < |records| { assert all[..i] == records[..i]; }
    }
  }

  lemma {:induction false} LogBitsPrefix(records: seq<Record>, i: nat)
    requires Tiled(records) && i <= |records|
    ensures LogBits(records[..i]) <= LogBits(records)
    decreases |records|
  {
    if i < |records| {
      var front := records[..|records| - 1];
      forall k | 0 <= k < |front| ensures front[k].bitBegin == |LogBits(front[..k])| {
        assert front[..k] == records[..k];
      }
      LogBitsPrefix(front, i);
      assert front[..i] == records[..i];
    } else {
      assert records[..i] == records;
    }
  }

  /** Record `i` ends inside the log, and within it the log's bits are the record's bits. */
  lemma RecordBits(records: seq<Record>, i: nat)
    requires Tiled(records) && i < |records|
    ensures records[i].bitBegin + records[i].bitCount <= |LogBits(records)|
    ensures i + 1 < |records| ==> records[i].bitBegin + records[i].bitCount == records[i + 1].bitBegin
    ensures i + 1 == |records| ==> records[i].bitBegin + records[i].bitCount == |LogBits(records)|
    ensures forall bit: nat :: records[i].Contains(bit) ==> LogBits(records)[bit] == records[i].Test(bit)
  {
    LogBitsPrefix(records, i + 1);
    var upTo := records[..i + 1];
    assert upTo[..i] == records[..i];
    assert i + 1 == |records| ==> upTo == records;
    assert LogBits(upTo) == LogBits(records[..i]) + Unpack(records[i].bytes, records[i].bitCount);
    forall bit: nat | records[i].Contains(bit)
      ensures LogBits(records)[bit] == records[i].Test(bit)
    {
      assert LogBits(upTo)[bit] == Unpack(records[i].bytes, records[i].bitCount)[bit - records[i].bitBegin];
    }
  }

  /** When `left` records start at or below `bit`, the last of them decides the bit. */
  lemma LastRecordDecides(records: seq<Record>, left: nat, bit: nat)
    requires Tiled(records) && left <= |records|
    requires left > 0 ==> records[left - 1].bitBegin <= bit
    requires left < |records| ==> bit < records[left].bitBegin
    ensures left == 0 ==> |LogBits(records)| <= bit
    ensures left > 0 ==>
              (bit < |LogBits(records)| && LogBits(records)[bit]
               <==> records[left - 1].Contains(bit) && records[left - 1].Test(bit))
  {
    if left == 0 {
      assert records[..0] == [];
    } else {
      RecordBits(records, left - 1);
    }
  }

  /** A moment of an append log. */
  datatype LogView = LogView(recorded: seq<bool>, count: nat)

  class AppendBitmapData {
    /** An append-only store that is never copied. */
    const records: AppendArrayData<Record>
    var bitCount: nat
    /** All bits appended so far. */
    ghost var bits: seq<bool>

    ghost predicate Valid()
      reads this, records
    {
      && records.Valid()
      && Tiled(records.elements)
      && bits == LogBits(records.elements)
      && bitCount == |bits|
    }

    constructor ()
      ensures Valid() && bits == [] && records.elements == [] && fresh(records)
    {
      records := new AppendArrayData<Record>(BitmapRecord(0, 0, []));
      bitCount := 0;
      bits := [];
    }

    /** What a reader can load: the bits in committed records, and the count. */
    ghost function Seen(): LogView
      reads this, records
    {
      LogView(LogBits(records.elements), bitCount)
    }

    /** Appends the first `count` bits of `data`; what lies above them in the last byte is ignored. The
        record is committed before the count is stored: `between` is what readers see in the meantime. */
    method Append(data: seq<Byte>, count: nat) returns (ok: bool, ghost between: LogView)
      requires Valid() && ByteSize(count) <= |data|
      modifies this, records
      ensures Valid()
      ensures ok <==> |old(records.elements)| < CAPACITY
      ensures ok ==> |records.elements| == |old(records.elements)| + 1
      ensures bits == old(bits) + if ok then Unpack(data, count) else []
      ensures ok ==> between == LogView(bits, |old(bits)|)
    {
      var bytes := data[..ByteSize(count)];
      var record := BitmapRecord(bitCount, count, bytes);
      ghost var before, more := records.elements, Unpack(data, count);
      UnpackPrefix(data, count);
      TiledAppend(before, record);
      var status, _ := records.Append([record]);
      between := Seen();
      ok := status.Ok?;
      if !ok {
        return;
      }
      assert records.elements == before + [record] && LogBits(records.elements) == old(bits) + more;
      bitCount := bitCount + count;
      bits := bits + more;
    }

    /** How many records start at or below `bit`, found by binary search. */
    method CountStarts(bit: nat) returns (left: nat)
      requires records.Valid()
      ensures left <= |records.elements|
      ensures left > 0 ==> records.elements[left - 1].bitBegin <= bit
      ensures left < |records.elements| ==> bit < records.elements[left].bitBegin
    {
      left := 0;
      var right := records.Size();
      while left < right
        invariant left <= right <= |records.elements|
        invariant left > 0 ==> records.elements[left - 1].bitBegin <= bit
        invariant right < |records.elements| ==> bit < records.elements[right].bitBegin
      {
        var middle := left + (right - left) / 2;
        var probe := records.Get(middle);
        if probe.bitBegin <= bit {
          left := middle + 1;
        } else {
          right := middle;
        }
      }
    }

    /** The validity of one bit, decided by the last record that starts at or below it. */
    method Test(bit: nat) returns (r: bool)
      requires Valid()
      ensures r <==> bit < |bits| && bits[bit]
    {
      var left := CountStarts(bit);
      LastRecordDecides(records.elements, left, bit);
      if left == 0 {
        return false;
      }
      var record := records.Get(left - 1);
      return record.Contains(bit) && record.Test(bit);
    }

    /** Byte `index` of the packed form of the whole log. */
    method GetByte(index: nat) returns (value: Byte)
      requires Valid()
      ensures value == PackedByte(bits, index)
    {
      var end := bitCount;
      value := Mask(8, 0, 0);
      var bit := 0;
      while bit < 8
        invariant 0 <= bit <= 8
        invariant forall j :: 0 <= j < 8 ==> value[j] == (j < bit && PackedByte(bits, index)[j])
      {
        if 8 * index + bit >= end {
          break;
        }
        var isSet := Test(8 * index + bit);
        if isSet {
          value := value[bit := true];
        }
        bit := bit + 1;
      }
    }
  }

  /** The packed form of `data`'s first `count` bits with the padding of its last byte cleared. */
  lemma MaskedTail(data: seq<Byte>, count: nat)
    requires |data| == ByteSize(count) && count > 0
    ensures Unpack(MaskTail(data, count), count) == Unpack(data, count)
    ensures forall k :: 0 <= k < |data| ==> MaskTail(data, count)[k] == PackedByte(Unpack(data, count), k)
  {
    var masked := MaskTail(data, count);
    forall k | 0 <= k < |data|
      ensures masked[k] == PackedByte(Unpack(data, count), k)
    {
      forall j | 0 <= j < 8 ensures masked[k][j] == PackedByte(Unpack(data, count), k)[j] {
        assert (8 * k + j) / 8 == k && (8 * k + j) % 8 == j;
      }
    }
    forall b: nat | b < count ensures BitAt(masked, b) == BitAt(data, b) {
      assert masked[b / 8][b % 8] == PackedByte(Unpack(data, count), b / 8)[b % 8];
      assert 8 * (b / 8) + b % 8 == b;
    }
  }

  /** Clears the bits above `count` in the last byte. */
  function MaskTail(data: seq<Byte>, count: nat): (r: seq<Byte>)
    requires |data| == ByteSize(count)
    ensures |r| == |data|
  {
    var used := count % 8;
    if used == 0 || count == 0 then data
    else
      var last := ByteSize(count) - 1;
      data[last := And(data[last], Mask(8, 0, used))]
  }

  class BitmapArray {
    var kind: Kind
    /** The packed bytes of a sealed bitmap. */
    var bytes: seq<Byte>
    /** `None` follows the append log. */
    var bitCount: Option<nat>
    /** Shared by every copy. */
    var append: AppendBitmapData?

    ghost predicate Valid()
      reads this, append, Shared()
    {
      && (append != null ==> append.Valid())
      && match kind
         case Sealed =>
           bitCount.Some? && ByteSize(bitCount.value) <= |bytes|
         case Appendable =>
           bitCount.Some? ==> bitCount.value <= if append == null then 0 else |append.bits|
    }

    /** The append-only storage that copies share. */
    ghost function Shared(): set<object>
      reads this
    {
      if append == null then {} else {append, append.records}
    }

    ghost function Contents(): (bits: seq<bool>)
      requires Valid()
      reads this, append, Shared()
    {
      match kind
      case Sealed => Unpack(bytes, bitCount.value)
      case Appendable => if append == null then [] else View(append.bits, bitCount)
    }

    ghost predicate Open()
      reads this
    {
      kind.Appendable? && append != null && bitCount.None?
    }

    constructor ()
      ensures Valid() && Contents() == [] && kind.Sealed? && append == null
    {
      kind, bytes, bitCount, append := Sealed, [], Some(0), null;
    }

    /** Sealed storage starts empty; append-only storage shows all that was appended to it. */
    method SetType(k: Kind)
      requires Valid()
      modifies this
      ensures Valid() && kind == k && bytes == old(bytes)
      ensures k.Sealed? ==> Contents() == [] && append == old(append)
      ensures k.Appendable? ==> Open() && Contents() == append.bits
      ensures k.Appendable? && old(append) != null ==> append == old(append)
      ensures k.Appendable? && old(append) == null ==>
                fresh(Shared()) && append.bits == [] && append.records.elements == []
    {
      kind := k;
      if kind.Sealed? {
        bitCount := Some(0);
        return;
      }
      if append == null {
        append := new AppendBitmapData();
      }
      bitCount := None;
    }

    method Clear()
      modifies this
      ensures Valid() && Contents() == [] && append == null && kind == old(kind) && bitCount == Some(0) && bytes == []
    {
      bytes, bitCount, append := [], Some(0), null;
    }

    /** Replaces the bitmap by the first `count` bits of `data`. */
    method Set(data: seq<Byte>, count: nat)
      requires ByteSize(count) <= |data|
      modifies this
      ensures Valid() && Contents() == Unpack(data, count) && append == null
      ensures kind == if count == 0 then old(kind) else Sealed
      ensures count != 0 ==> |bytes| == ByteSize(count)
      ensures forall k :: 0 <= k < |bytes| ==> bytes[k] == PackedByte(Contents(), k)
    {
      Clear();
      if count == 0 {
        return;
      }
      kind := Sealed;
      bytes := data[..ByteSize(count)];
      UnpackPrefix(data, count);
      MaskedTail(bytes, count);
      bitCount := Some(count);
      bytes := MaskTail(bytes, count);
    }

    method Append(data: seq<Byte>, count: nat) returns (ok: bool, ghost between: LogView)
      requires Valid() && ByteSize(count) <= |data|
      modifies Shared()
      ensures Valid()
      ensures ok <==> count == 0 || (Open() && |old(append.records.elements)| < CAPACITY)
      ensures !ok || count == 0 ==> Contents() == old(Contents())
      ensures ok && count != 0 ==>
                && Contents() == old(Contents()) + Unpack(data, count)
                && |append.records.elements| == |old(append.records.elements)| + 1
                && between == LogView(Contents(), |old(Contents())|)
    {
      between := LogView([], 0);
      if count == 0 {
        return true, between;
      }
      if kind.Sealed? || append == null || bitCount.Some? {
        return false, between;
      }
      ok, between := append.Append(data, count);
    }

    method Size() returns (n: nat)
      requires Valid()
      ensures n == |Contents()|
    {
      if kind.Sealed? {
        return bitCount.value;
      }
      if append == null {
        return 0;
      }
      return if bitCount.Some? then bitCount.value else append.bitCount;
    }

    predicate IsEmpty()
      requires Valid()
      reads this, append, Shared()
      ensures IsEmpty() <==> Contents() == []
    {
      bitCount == Some(0) || (kind.Appendable? && (append == null || (bitCount.None? && append.bitCount == 0)))
    }

    /** What `operator[]` may be asked for: a byte of sealed storage, any byte of a log. */
    ghost predicate HasByte(index: nat)
      reads this
    {
      if kind.Sealed? then index < |bytes| else append != null
    }

    /** The packed byte of the storage, which for a snapshot is the log it was taken of. */
    ghost function StoredByte(index: nat): Byte
      requires HasByte(index)
      reads this, append
    {
      if kind.Sealed? then bytes[index] else PackedByte(append.bits, index)
    }

    method GetByte(index: nat) returns (value: Byte)
      requires Valid() && HasByte(index)
      ensures value == StoredByte(index)
    {
      if kind.Sealed? {
        value := bytes[index];
      } else {
        value := append.GetByte(index);
      }
    }

    /** The first `n` bytes can be asked for. */
    ghost predicate HasBytes(n: nat)
      reads this
    {
      n == 0 || if kind.Sealed? then n <= |bytes| else append != null
    }

    /** The first `n` bits of the storage, which for a snapshot is the log it was taken of, zero beyond its end. */
    ghost function StoredBits(n: nat): (bits: seq<bool>)
      requires HasBytes(ByteSize(n))
      reads this, append
      ensures |bits| == n
    {
      if n == 0 then [] else if kind.Sealed? then Unpack(bytes, n) else Padded(append.bits, n)
    }

    /** As far as a bitmap goes, its storage holds its own bits. */
    lemma StoredIsOwn(n: nat)
      requires Valid() && n <= |Contents()| && HasBytes(ByteSize(n))
      ensures StoredBits(n) == Contents()[..n]
    {
    }

    /** The first `n` bits, byte by byte. */
    method ReadBytes(n: nat) returns (data: seq<Byte>)
      requires Valid() && HasBytes(ByteSize(n))
      ensures |data| == ByteSize(n) && Unpack(data, n) == StoredBits(n)
    {
      data := [];
      for k := 0 to ByteSize(n)
        invariant |data| == k && AreStored(data)
      {
        data := ReadOne(data);
      }
      BytesAreBits(data, n);
    }

    /** The first bytes of the storage. */
    ghost predicate AreStored(data: seq<Byte>)
      reads this, append
    {
      forall j :: 0 <= j < |data| ==> IsByte(j, data[j])
    }

    ghost predicate IsByte(j: nat, value: Byte)
      reads this, append
    {
      HasByte(j) && value == StoredByte(j)
    }

    lemma StoredOneMore(data: seq<Byte>, value: Byte)
      requires AreStored(data) && IsByte(|data|, value)
      ensures AreStored(data + [value])
    {
      var more := data + [value];
      forall j: nat | j < |more| ensures IsByte(j, more[j]) {
        if j < |data| {
          assert more[j] == data[j] && IsByte(j, data[j]);
        }
      }
    }

    method ReadOne(data: seq<Byte>) returns (more: seq<Byte>)
      requires Valid() && AreStored(data) && HasByte(|data|)
      ensures |more| == |data| + 1 && AreStored(more)
    {
      var value := GetByte(|data|);
      StoredOneMore(data, value);
      more := data + [value];
    }

    lemma BytesAreBits(data: seq<Byte>, n: nat)
      requires HasBytes(ByteSize(n)) && |data| == ByteSize(n) && AreStored(data)
      ensures Unpack(data, n) == StoredBits(n)
    {
      forall p: nat | p < n ensures Unpack(data, n)[p] == StoredBits(n)[p] {
        assert IsByte(p / 8, data[p / 8]);
        if kind.Appendable? { PackedByteBit(append.bits, p); }
      }
    }

    method PackedBit(bit: nat) returns (r: bool)
      requires Valid()
      ensures r <==> bit < |Contents()| && Contents()[bit]
    {
      var n := Size();
      if bit >= n {
        return false;
      }
      var value := GetByte(bit / 8);
      if kind.Appendable? { PackedByteBit(append.bits, bit); }
      r := value[bit % 8];
    }

    method Prefix(count: nat) returns (copy: BitmapArray)
      requires Valid()
      ensures fresh(copy) && copy.Valid()
      ensures copy.append == append && copy.kind == kind
      ensures kind.Appendable? ==> copy.bitCount == Some(|copy.Contents()|)
      ensures copy.Contents() == Contents()[..Min(count, |Contents()|)]
    {
      var n := Size();
      copy := new BitmapArray();
      copy.kind, copy.bytes, copy.bitCount, copy.append := kind, bytes, Some(Min(count, n)), append;
    }

    /** The logical bits of a snapshot of an append log never change. */
    twostate lemma SnapshotUnchanged()
      requires old(Valid()) && Valid() && unchanged(this)
      requires kind.Appendable? && bitCount.Some?
      requires append != null ==> old(append.bits) <= append.bits
      ensures Contents() == old(Contents())
    {
    }

    /** A byte of an append log, read through a snapshot or not, stays the same under every later append
        exactly when all eight of its bits are logged by now, however few of them the snapshot shows. */
    lemma ByteStableIff(index: nat)
      requires Valid() && kind.Appendable? && append != null
      ensures (forall more: seq<bool> :: PackedByte(append.bits + more, index) == StoredByte(index))
         <==> 8 * index + 8 <= |append.bits|
    {
      LoggedByteStable(append.bits, index);
    }

    /** A byte read through a snapshot is the packed byte of the snapshot's own bits exactly when no logged
        bit of it beyond the snapshot is set. */
    lemma ByteIsOwnIff(index: nat)
      requires Valid() && kind.Appendable? && append != null && bitCount.Some?
      ensures StoredByte(index) == PackedByte(Contents(), index)
         <==> forall p :: 8 * index <= p < 8 * index + 8 && |Contents()| <= p < |append.bits| ==> !append.bits[p]
    {
      LoggedByteShows(append.bits, |Contents()|, index);
    }

    /** So a byte that was complete when the snapshot was taken reads the same after any appends. */
    twostate lemma CompleteByteUnchanged(index: nat)
      requires old(Valid()) && Valid() && unchanged(this) && kind.Appendable? && append != null
      requires old(append.bits) <= append.bits && 8 * index + 8 <= |old(append.bits)|
      ensures StoredByte(index) == old(StoredByte(index))
    {
      var more := append.bits[|old(append.bits)|..];
      assert append.bits == old(append.bits) + more;
    }
  }

  /** The first `n` bits, zero beyond the end. */
  function Padded(bits: seq<bool>, n: nat): (r: seq<bool>)
    ensures |r| == n
  {
    seq(n, p requires 0 <= p < n => p < |bits| && bits[p])
  }

  /** Bytes of a growing log, each read at its own moment, show the bits logged before the first read. */
  lemma BytesShowOwn(own: seq<bool>, logs: seq<seq<bool>>, data: seq<Byte>)
    requires |logs| == |data| == ByteSize(|own|)
    requires forall k :: 0 <= k < |logs| ==> own <= logs[k] && data[k] == PackedByte(logs[k], k)
    ensures Unpack(data, |own|) == own
  {
    forall p: nat | p < |own| ensures Unpack(data, |own|)[p] == own[p] {
      PackedByteBit(logs[p / 8], p);
    }
  }

  lemma LoggedByteShows(bits: seq<bool>, count: nat, k: nat)
    requires count <= |bits|
    ensures PackedByte(bits, k) == PackedByte(bits[..count], k)
       <==> forall p :: 8 * k <= p < 8 * k + 8 && count <= p < |bits| ==> !bits[p]
  {
    var whole, own := PackedByte(bits, k), PackedByte(bits[..count], k);
    if whole == own {
      forall p | 8 * k <= p < 8 * k + 8 && count <= p < |bits| ensures !bits[p] {
        assert whole[p - 8 * k] == own[p - 8 * k];
      }
    } else {
      var j :| 0 <= j < 8 && whole[j] != own[j];
      assert bits[8 * k + j];
    }
  }

  /** A byte of the log stays the same under every later append exactly when all its bits are logged. */
  lemma LoggedByteStable(bits: seq<bool>, k: nat)
    ensures (forall more: seq<bool> :: PackedByte(bits + more, k) == PackedByte(bits, k))
       <==> 8 * k + 8 <= |bits|
  {
    if 8 * k + 8 <= |bits| {
      forall more: seq<bool> ensures PackedByte(bits + more, k) == PackedByte(bits, k) {
      }
    } else {
      var more := seq(8 * k + 8, _ => true);
      assert PackedByte(bits + more, k)[7] && !PackedByte(bits, k)[7];
    }
  }

  // ---- splitting and joining -----------------------------------------------------

  datatype BitBuffer = BitBuffer(bytes: seq<Byte>, count: nat)

  type BitBatch = b: BitBuffer | ByteSize(b.count) <= |b.bytes| witness BitBuffer([], 0)

  /** The bit string that the batches spell out, padding left aside. */
  ghost function Joined(batches: seq<BitBatch>): (bits: seq<bool>)
  {
    if |batches| == 0 then []
    else
      var last := batches[|batches| - 1];
      Joined(batches[..|batches| - 1]) + Unpack(last.bytes, last.count)
  }

  /** The records that appending the batches one after the other leaves in the log. */
  ghost function RecordsOf(batches: seq<BitBatch>): (records: seq<Record>)
  {
    if |batches| == 0 then []
    else
      var front, last := RecordsOf(batches[..|batches| - 1]), batches[|batches| - 1];
      front + [BitmapRecord(|LogBits(front)|, last.count, last.bytes[..ByteSize(last.count)])]
  }

  lemma {:induction false} RecordsOfBits(batches: seq<BitBatch>)
    ensures Tiled(RecordsOf(batches)) && LogBits(RecordsOf(batches)) == Joined(batches)
  {
    if |batches| > 0 {
      var front, last := batches[..|batches| - 1], batches[|batches| - 1];
      RecordsOfBits(front);
      var record := BitmapRecord(|LogBits(RecordsOf(front))|, last.count, last.bytes[..ByteSize(last.count)]);
      TiledAppend(RecordsOf(front), record);
      UnpackPrefix(last.bytes, last.count);
    }
  }

  /** However a bit string is cut into batches, and whatever garbage pads each of them, every byte of
      the append log (`GetByte` of the records it then holds) is the byte of the sealed bitmap set
      from the whole string, itself with garbage in its padding. */
  lemma SplitEqualsWhole(batches: seq<BitBatch>, whole: seq<Byte>, count: nat, k: nat)
    requires |whole| == ByteSize(count) && k < |whole| && Unpack(whole, count) == Joined(batches)
    ensures PackedByte(LogBits(RecordsOf(batches)), k) == MaskTail(whole, count)[k]
  {
    RecordsOfBits(batches);
    MaskedTail(whole, count);
  }
}
