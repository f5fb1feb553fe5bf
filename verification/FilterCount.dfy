/** Counting the backend vectors of a public-id window, and the filtered ones among them, by population
    counts of a partial head byte, whole words, whole bytes and a partial tail byte. */
module FilterCount {
  import opened Bits

  /** The validity of the public ids below `end`: all of them when there is no validity bitmap. */
  function ValidBits(valid: Option<seq<Byte>>, end: nat): (r: seq<bool>)
    requires valid.Some? ==> ByteSize(end) <= |valid.value|
    ensures |r| == end
  {
    if valid.Some? then Unpack(valid.value, end) else Mask(end, 0, end)
  }

  /** Public ids below `end` that are valid and filtered. */
  function FilteredBits(data: seq<Byte>, valid: Option<seq<Byte>>, end: nat): (r: seq<bool>)
    requires ByteSize(end) <= |data|
    requires valid.Some? ==> ByteSize(end) <= |valid.value|
    ensures |r| == end
  {
    And(ValidBits(valid, end), Unpack(data, end))
  }

  ghost predicate TallyAt(data: seq<Byte>, valid: Option<seq<Byte>>, end: nat, vs: seq<nat>, fs: seq<nat>, k: nat)
    requires ByteSize(end) <= |data| && (valid.Some? ==> ByteSize(end) <= |valid.value|)
    requires k <= end && |vs| == end + 1 && |fs| == end + 1
  {
    vs[k] == Rank(ValidBits(valid, end), k) && fs[k] == Rank(FilteredBits(data, valid, end), k)
  }

  /** Running totals: `vs[k]` valid public ids lie below `k`, and `fs[k]` of them are filtered. */
  ghost predicate Tally(data: seq<Byte>, valid: Option<seq<Byte>>, end: nat, vs: seq<nat>, fs: seq<nat>) {
    && ByteSize(end) <= |data| && (valid.Some? ==> ByteSize(end) <= |valid.value|)
    && |vs| == end + 1 && |fs| == end + 1
    && forall k :: 0 <= k <= end ==> TallyAt(data, valid, end, vs, fs, k)
  }

  /** The counts over the public ids `[lo, hi)`. */
  ghost predicate Counts(vs: seq<nat>, fs: seq<nat>, lo: nat, hi: nat, vectors: nat, filtered: nat) {
    && lo <= hi < |vs| == |fs|
    && vs[hi] == vs[lo] + vectors && fs[hi] == fs[lo] + filtered
  }

  lemma CountsFromPop(data: seq<Byte>, valid: Option<seq<Byte>>, end: nat, vs: seq<nat>, fs: seq<nat>, lo: nat, hi: nat)
    requires Tally(data, valid, end, vs, fs) && lo <= hi <= end
    ensures Counts(vs, fs, lo, hi, Pop(ValidBits(valid, end)[lo..hi]), Pop(FilteredBits(data, valid, end)[lo..hi]))
  {
    assert TallyAt(data, valid, end, vs, fs, lo) && TallyAt(data, valid, end, vs, fs, hi);
    RankIsPop(ValidBits(valid, end), lo, hi);
    RankIsPop(FilteredBits(data, valid, end), lo, hi);
  }

  function Ranks(bits: seq<bool>, n: nat): (r: seq<nat>)
    requires n <= |bits|
    ensures |r| == n + 1
  {
    if n == 0 then [0] else Ranks(bits, n - 1) + [Rank(bits, n)]
  }

  lemma {:induction false} RanksAt(bits: seq<bool>, n: nat, k: nat)
    requires k <= n <= |bits|
    ensures Ranks(bits, n)[k] == Rank(bits, k)
  {
    if k < n { RanksAt(bits, n - 1, k); }
  }

  lemma ByteOfBit(bytes: seq<Byte>, end: nat, k: nat, i: nat)
    requires ByteSize(end) <= |bytes| && i < 8 && 8 * k + i < end
    ensures k < |bytes| && Unpack(bytes, end)[8 * k + i] == bytes[k][i]
  {
    assert (8 * k + i) / 8 == k && (8 * k + i) % 8 == i;
  }

  lemma ByteWindow(bytes: seq<Byte>, end: nat, k: nat, from: nat, lo: nat, hi: nat)
    requires ByteSize(end) <= |bytes| && lo == 8 * k + from && lo < hi <= 8 * k + 8 && hi <= end
    ensures k < |bytes|
    ensures Unpack(bytes, end)[lo..hi] == bytes[k][from..from + hi - lo]
  {
    var bits, window := Unpack(bytes, end)[lo..hi], bytes[k][from..from + hi - lo];
    forall i | 0 <= i < hi - lo ensures window[i] == bits[i] {
      ByteOfBit(bytes, end, k, from + i);
    }
  }

  lemma AndSlice(a: seq<bool>, b: seq<bool>, from: nat, to: nat)
    requires |a| == |b| && from <= to <= |a|
    ensures And(a, b)[from..to] == And(a[from..to], b[from..to])
  {
  }

  /** The validity byte at `k`: all ones where there is no validity bitmap. */
  function ValidByte(valid: Option<seq<Byte>>, k: nat): (r: Byte)
    requires valid.Some? ==> k < |valid.value|
  {
    if valid.Some? then valid.value[k] else Mask(8, 0, 8)
  }

  /** The bits of one byte that count: those in the window, and valid ones where validity is known. */
  function MaskedValid(valid: Option<seq<Byte>>, k: nat, from: nat, count: nat): (r: Byte)
    requires valid.Some? ==> k < |valid.value|
  {
    if valid.Some? then And(Mask(8, from, count), valid.value[k]) else Mask(8, from, count)
  }

  lemma MaskedIsAnd(valid: Option<seq<Byte>>, k: nat, from: nat, count: nat)
    requires valid.Some? ==> k < |valid.value|
    ensures MaskedValid(valid, k, from, count) == And(Mask(8, from, count), ValidByte(valid, k))
  {
    if valid.None? {
      forall i | 0 <= i < 8 ensures Mask(8, from, count)[i] == And(Mask(8, from, count), ValidByte(valid, k))[i] {
      }
    }
  }

  lemma ValidWindow(valid: Option<seq<Byte>>, end: nat, k: nat, from: nat, lo: nat, hi: nat)
    requires valid.Some? ==> ByteSize(end) <= |valid.value|
    requires lo == 8 * k + from && lo < hi <= 8 * k + 8 && hi <= end
    ensures valid.Some? ==> k < |valid.value|
    ensures ValidBits(valid, end)[lo..hi] == ValidByte(valid, k)[from..from + hi - lo]
  {
    if valid.Some? {
      ByteWindow(valid.value, end, k, from, lo, hi);
    }
  }

  /** The unpacked bits of a window inside one byte are that part of the byte. */
  lemma ByteSlices(data: seq<Byte>, valid: Option<seq<Byte>>, end: nat, k: nat, from: nat, lo: nat, hi: nat)
    requires ByteSize(end) <= |data| && (valid.Some? ==> ByteSize(end) <= |valid.value|)
    requires lo == 8 * k + from && lo < hi <= 8 * k + 8 && hi <= end
    ensures k < |data| && (valid.Some? ==> k < |valid.value|)
    ensures ValidBits(valid, end)[lo..hi] == ValidByte(valid, k)[from..from + hi - lo]
    ensures FilteredBits(data, valid, end)[lo..hi]
         == And(ValidByte(valid, k)[from..from + hi - lo], data[k][from..from + hi - lo])
  {
    ByteWindow(data, end, k, from, lo, hi);
    ValidWindow(valid, end, k, from, lo, hi);
    AndSlice(ValidBits(valid, end), Unpack(data, end), lo, hi);
  }

  lemma ByteCounts(bits: Byte, valid: Byte, from: nat, count: nat)
    requires from + count <= 8
    ensures Pop(And(bits, And(Mask(8, from, count), valid)))
         == Pop(And(valid[from..from + count], bits[from..from + count]))
  {
    PopMasked(And(valid, bits), from, count);
    assert And(bits, And(Mask(8, from, count), valid)) == And(Mask(8, from, count), And(valid, bits));
    AndSlice(valid, bits, from, from + count);
  }

  /** What the masks leave of one byte counts the unpacked bits of its window. */
  lemma BytePops(data: seq<Byte>, valid: Option<seq<Byte>>, end: nat, k: nat, from: nat, lo: nat, hi: nat,
                 byte: Byte, masked: Byte)
    requires ByteSize(end) <= |data| && (valid.Some? ==> ByteSize(end) <= |valid.value|)
    requires lo == 8 * k + from && lo < hi <= 8 * k + 8 && hi <= end
    requires k < |data| && (valid.Some? ==> k < |valid.value|)
    requires byte == ValidByte(valid, k) && masked == MaskedValid(valid, k, from, hi - lo)
    ensures Pop(ValidBits(valid, end)[lo..hi]) == Pop(masked)
    ensures Pop(FilteredBits(data, valid, end)[lo..hi]) == Pop(And(data[k], masked))
  {
    ByteSlices(data, valid, end, k, from, lo, hi);
    MaskedIsAnd(valid, k, from, hi - lo);
    PopMasked(byte, from, hi - lo);
    ByteCounts(data[k], byte, from, hi - lo);
  }

  lemma CountsFrom(data: seq<Byte>, valid: Option<seq<Byte>>, end: nat, vs: seq<nat>, fs: seq<nat>, lo: nat, hi: nat,
                   vectors: nat, filtered: nat)
    requires Tally(data, valid, end, vs, fs) && lo <= hi <= end
    requires Pop(ValidBits(valid, end)[lo..hi]) == vectors && Pop(FilteredBits(data, valid, end)[lo..hi]) == filtered
    ensures Counts(vs, fs, lo, hi, vectors, filtered)
  {
    CountsFromPop(data, valid, end, vs, fs, lo, hi);
  }

  lemma ByteTally(data: seq<Byte>, valid: Option<seq<Byte>>, end: nat, vs: seq<nat>, fs: seq<nat>,
                  k: nat, from: nat, count: nat, vectors: nat, filtered: nat)
    requires Tally(data, valid, end, vs, fs) && k < |data| && (valid.Some? ==> k < |valid.value|)
    requires from + count <= 8 && 8 * k + from + count <= end && count > 0
    requires vectors == Pop(MaskedValid(valid, k, from, count))
    requires filtered == Pop(And(data[k], MaskedValid(valid, k, from, count)))
    ensures Counts(vs, fs, 8 * k + from, 8 * k + from + count, vectors, filtered)
  {
    var lo, hi := 8 * k + from, 8 * k + from + count;
    BytePops(data, valid, end, k, from, lo, hi, ValidByte(valid, k), MaskedValid(valid, k, from, count));
    CountsFrom(data, valid, end, vs, fs, lo, hi, vectors, filtered);
  }

  /** The bits of one byte from `from` on, `count` of them. */
  method CountByte(data: seq<Byte>, valid: Option<seq<Byte>>, k: nat, from: nat, count: nat,
                   ghost end: nat, ghost vs: seq<nat>, ghost fs: seq<nat>)
    returns (vectors: nat, filtered: nat)
    requires Tally(data, valid, end, vs, fs)
    requires from + count <= 8 && 8 * k + from + count <= end && count > 0
    ensures Counts(vs, fs, 8 * k + from, 8 * k + from + count, vectors, filtered)
  {
    var validBits := MaskedValid(valid, k, from, count);
    vectors, filtered := Pop(validBits), Pop(And(data[k], validBits));
    ByteTally(data, valid, end, vs, fs, k, from, count, vectors, filtered);
  }

  /** Eight bytes at once. */
  method CountWord(data: seq<Byte>, valid: Option<seq<Byte>>, at: nat,
                   ghost end: nat, ghost vs: seq<nat>, ghost fs: seq<nat>)
    returns (vectors: nat, filtered: nat)
    requires Tally(data, valid, end, vs, fs) && 8 * at + 64 <= end
    ensures Counts(vs, fs, 8 * at, 8 * at + 64, vectors, filtered)
  {
    ghost var lo, hi := 8 * at, 8 * at + 64;
    LoadWordBits(data, at, end);
    ghost var all := ValidBits(valid, end)[lo..hi];
    AndSlice(ValidBits(valid, end), Unpack(data, end), lo, hi);
    CountsFromPop(data, valid, end, vs, fs, lo, hi);
    var bits := LoadWord(data, at);
    if valid.Some? {
      LoadWordBits(valid.value, at, end);
      var validBits := LoadWord(valid.value, at);
      vectors := Pop(validBits);
      filtered := Pop(And(bits, validBits));
      assert And(bits, validBits) == And(validBits, bits);
    } else {
      PopOnes(all);
      vectors := 64;
      filtered := Pop(bits);
      assert And(all, bits) == bits;
    }
  }

  /** The loop over whole words. */
  method CountWords(data: seq<Byte>, valid: Option<seq<Byte>>, at: nat, words: nat,
                    ghost end: nat, ghost vs: seq<nat>, ghost fs: seq<nat>)
    returns (vectors: nat, filtered: nat)
    requires Tally(data, valid, end, vs, fs) && 8 * at + 64 * words <= end
    ensures Counts(vs, fs, 8 * at, 8 * at + 64 * words, vectors, filtered)
  {
    vectors, filtered := 0, 0;
    for i := 0 to words
      invariant Counts(vs, fs, 8 * at, 8 * at + 64 * i, vectors, filtered)
    {
      var v, f := CountWord(data, valid, at + 8 * i, end, vs, fs);
      vectors, filtered := vectors + v, filtered + f;
    }
  }

  /** The loop over the whole bytes that are left. */
  method CountBytes(data: seq<Byte>, valid: Option<seq<Byte>>, at: nat, to: nat,
                    ghost end: nat, ghost vs: seq<nat>, ghost fs: seq<nat>)
    returns (vectors: nat, filtered: nat)
    requires Tally(data, valid, end, vs, fs) && at <= to && 8 * to <= end
    ensures Counts(vs, fs, 8 * at, 8 * to, vectors, filtered)
  {
    vectors, filtered := 0, 0;
    for k := at to to
      invariant Counts(vs, fs, 8 * at, 8 * k, vectors, filtered)
    {
      var v, f := CountByte(data, valid, k, 0, 8, end, vs, fs);
      vectors, filtered := vectors + v, filtered + f;
    }
  }

  /** Everything after the head byte. */
  method CountAligned(data: seq<Byte>, valid: Option<seq<Byte>>, at: nat, end: nat,
                      ghost vs: seq<nat>, ghost fs: seq<nat>)
    returns (vectors: nat, filtered: nat)
    requires Tally(data, valid, end, vs, fs) && 8 * at <= end
    ensures Counts(vs, fs, 8 * at, end, vectors, filtered)
  {
    var fullBytes := (end - 8 * at) / 8;
    var words := fullBytes / 8;
    var byteEnd := at + fullBytes;
    vectors, filtered := CountWords(data, valid, at, words, end, vs, fs);
    var v, f := CountBytes(data, valid, at + 8 * words, byteEnd, end, vs, fs);
    vectors, filtered := vectors + v, filtered + f;
    if 8 * byteEnd < end {
      v, f := CountByte(data, valid, byteEnd, 0, end - 8 * byteEnd, end, vs, fs);
      vectors, filtered := vectors + v, filtered + f;
    }
  }

  /** `count_filtered_bits_impl_` on a non-empty window. */
  method CountWindow(data: seq<Byte>, valid: Option<seq<Byte>>, from: nat, end: nat)
    returns (vectors: nat, filtered: nat)
    requires from < end && ByteSize(end) <= |data|
    requires valid.Some? ==> ByteSize(end) <= |valid.value|
    ensures vectors == Pop(ValidBits(valid, end)[from..])
    ensures filtered == Pop(FilteredBits(data, valid, end)[from..])
  {
    ghost var vs, fs := Ranks(ValidBits(valid, end), end), Ranks(FilteredBits(data, valid, end), end);
    forall k: nat | k <= end ensures TallyAt(data, valid, end, vs, fs, k) {
      RanksAt(ValidBits(valid, end), end, k);
      RanksAt(FilteredBits(data, valid, end), end, k);
    }
    vectors, filtered := CountTallied(data, valid, from, end, vs, fs);
    CountsFromPop(data, valid, end, vs, fs, from, end);
    assert ValidBits(valid, end)[from..end] == ValidBits(valid, end)[from..];
    assert FilteredBits(data, valid, end)[from..end] == FilteredBits(data, valid, end)[from..];
  }

  method CountTallied(data: seq<Byte>, valid: Option<seq<Byte>>, from: nat, end: nat,
                      ghost vs: seq<nat>, ghost fs: seq<nat>)
    returns (vectors: nat, filtered: nat)
    requires from < end && Tally(data, valid, end, vs, fs)
    ensures Counts(vs, fs, from, end, vectors, filtered)
  {
    if from % 8 == 0 {
      vectors, filtered := CountAligned(data, valid, from / 8, end, vs, fs);
    } else {
      var count := if 8 - from % 8 < end - from then 8 - from % 8 else end - from;
      vectors, filtered := CountByte(data, valid, from / 8, from % 8, count, end, vs, fs);
      if from + count < end {
        var v, f := CountAligned(data, valid, from / 8 + 1, end, vs, fs);
        vectors, filtered := vectors + v, filtered + f;
      }
    }
  }
}
