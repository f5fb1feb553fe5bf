/** Reading a packed bitmap 64 bits at a time. */
module WordScan {
  import opened Bits

  /** Bits `[64 w, 64 w + 64)` of the first `bytes` bytes of a bitmap, zero where there is no byte. */
  function WordAt(data: seq<Byte>, bytes: nat, w: nat): (r: Word)
    requires bytes <= |data|
  {
    seq(WORD_BITS, k requires 0 <= k < WORD_BITS => 8 * w + k / 8 < bytes && data[8 * w + k / 8][k % 8])
  }

  lemma WordAtBit(data: seq<Byte>, count: nat, w: nat, k: nat)
    requires ByteSize(count) <= |data| && k < 64 && 64 * w + k < count
    ensures WordAt(data, ByteSize(count), w)[k] == BitAt(data, 64 * w + k)
  {
    assert (64 * w + k) / 8 == 8 * w + k / 8 && (64 * w + k) % 8 == k % 8;
  }

  /** All bits in `[lo, hi)` are set. */
  ghost predicate AllSet(data: seq<Byte>, lo: nat, hi: nat)
    requires hi <= 8 * |data|
  {
    forall p :: lo <= p < hi ==> BitAt(data, p)
  }

  function LowerBitsMask(bits: nat): (r: Word)
    requires bits <= 64
  {
    Mask(64, 0, bits)
  }

  /** The masks of the scans select the bits from `a` up to `b`. */
  lemma WindowMask(a: nat, b: nat)
    requires a <= b <= 64
    ensures And(Not(LowerBitsMask(a)), LowerBitsMask(b)) == Mask(64, a, b - a)
    ensures b == 64 ==> Not(LowerBitsMask(a)) == Mask(64, a, b - a)
    ensures a == 0 ==> LowerBitsMask(b) == Mask(64, a, b - a)
  {
  }

  /** A masked word equals its mask exactly when the window is all set. */
  lemma MaskedWordFull(data: seq<Byte>, count: nat, w: nat, a: nat, b: nat)
    requires ByteSize(count) <= |data| && a <= b <= 64 && 64 * w + b <= count
    ensures And(WordAt(data, ByteSize(count), w), Mask(64, a, b - a)) == Mask(64, a, b - a)
       <==> AllSet(data, 64 * w + a, 64 * w + b)
  {
    var word, mask := WordAt(data, ByteSize(count), w), Mask(64, a, b - a);
    var masked := And(word, mask);
    if masked == mask {
      forall p | 64 * w + a <= p < 64 * w + b ensures BitAt(data, p) {
        WordAtBit(data, count, w, p - 64 * w);
        assert masked[p - 64 * w] == mask[p - 64 * w];
      }
    }
    if AllSet(data, 64 * w + a, 64 * w + b) {
      forall k | 0 <= k < 64 ensures masked[k] == mask[k] {
        if a <= k < b { WordAtBit(data, count, w, k); }
      }
    }
  }

  /** The clear bits of a word inside a window. */
  function ClearBits(data: seq<Byte>, count: nat, w: nat, a: nat, b: nat): (r: Word)
    requires ByteSize(count) <= |data| && a <= b <= 64
  {
    And(Not(WordAt(data, ByteSize(count), w)), Mask(64, a, b - a))
  }

  lemma ClearBitsBit(data: seq<Byte>, count: nat, w: nat, a: nat, b: nat, k: nat)
    requires ByteSize(count) <= |data| && a <= b <= 64 && 64 * w + b <= count && k < 64
    ensures ClearBits(data, count, w, a, b)[k] <==> a <= k < b && !BitAt(data, 64 * w + k)
  {
    if a <= k < b { WordAtBit(data, count, w, k); }
  }

  /** How the scans narrow a complemented word to a window: a mask at the end that the word holds,
      none where the window goes on beyond it. */
  function Narrowed(word: Word, a: nat, b: nat, atBottom: bool, atTop: bool): (r: Word)
    requires a <= 64 && b <= 64
  {
    var value := Not(word);
    var above := if atBottom then And(value, Not(LowerBitsMask(a))) else value;
    if atTop then And(above, LowerBitsMask(b)) else above
  }

  lemma NarrowedIsClearBits(data: seq<Byte>, count: nat, w: nat, a: nat, b: nat, atBottom: bool, atTop: bool)
    requires ByteSize(count) <= |data| && a <= b <= 64
    requires (!atTop ==> b == 64) && (!atBottom ==> a == 0)
    ensures Narrowed(WordAt(data, ByteSize(count), w), a, b, atBottom, atTop) == ClearBits(data, count, w, a, b)
  {
  }

  lemma NoClearBits(data: seq<Byte>, count: nat, w: nat, a: nat, b: nat)
    requires ByteSize(count) <= |data| && a <= b <= 64 && 64 * w + b <= count
    requires IsZero(ClearBits(data, count, w, a, b))
    ensures AllSet(data, 64 * w + a, 64 * w + b)
  {
    forall p | 64 * w + a <= p < 64 * w + b ensures BitAt(data, p) {
      ClearBitsBit(data, count, w, a, b, p - 64 * w);
    }
  }

  /** The set bits of a masked complement below, or above, `k` decide the bitmap there. */
  lemma ClearBitsBelow(data: seq<Byte>, count: nat, w: nat, a: nat, b: nat, k: nat)
    requires ByteSize(count) <= |data| && a <= b <= 64 && 64 * w + b <= count && k < 64
    requires ClearBits(data, count, w, a, b)[k]
    requires forall i :: 0 <= i < k ==> !ClearBits(data, count, w, a, b)[i]
    ensures a <= k < b && !BitAt(data, 64 * w + k) && AllSet(data, 64 * w + a, 64 * w + k)
  {
    ClearBitsBit(data, count, w, a, b, k);
    forall p | 64 * w + a <= p < 64 * w + k ensures BitAt(data, p) {
      ClearBitsBit(data, count, w, a, b, p - 64 * w);
    }
  }

  lemma ClearBitsAbove(data: seq<Byte>, count: nat, w: nat, a: nat, b: nat, k: nat)
    requires ByteSize(count) <= |data| && a <= b <= 64 && 64 * w + b <= count && k < 64
    requires ClearBits(data, count, w, a, b)[k]
    requires forall i :: k < i < 64 ==> !ClearBits(data, count, w, a, b)[i]
    ensures a <= k < b && !BitAt(data, 64 * w + k) && AllSet(data, 64 * w + k + 1, 64 * w + b)
  {
    ClearBitsBit(data, count, w, a, b, k);
    forall p | 64 * w + k + 1 <= p < 64 * w + b ensures BitAt(data, p) {
      ClearBitsBit(data, count, w, a, b, p - 64 * w);
    }
  }

  /** `__builtin_ctzll` of a word, or nothing when it is zero. */
  method LowestSetBit(word: Word) returns (r: Option<nat>)
    ensures match r
            case Some(k) => k < 64 && word[k] && forall i :: 0 <= i < k ==> !word[i]
            case None => IsZero(word)
  {
    r := if IsZero(word) then None else Some(Ctz(word));
  }

  /** `63 - __builtin_clzll` of a word, or nothing when it is zero. */
  method HighestSetBit(word: Word) returns (r: Option<nat>)
    ensures match r
            case Some(k) => k < 64 && word[k] && forall i :: k < i < 64 ==> !word[i]
            case None => IsZero(word)
  {
    r := if IsZero(word) then None else Some(63 - Clz(word));
  }

  /** `load_word`: a full load where eight bytes remain, otherwise byte by byte. */
  method LoadWordChecked(data: seq<Byte>, bytes: nat, w: nat) returns (word: Word)
    requires bytes <= |data|
    ensures word == WordAt(data, bytes, w)
  {
    if bytes == 0 || w > (bytes - 1) / 8 {
      word := Mask(64, 0, 0);
      assert word == WordAt(data, bytes, w);
      return;
    }
    var offset := 8 * w;
    var remaining := bytes - offset;
    if remaining >= 8 {
      word := LoadWord(data, offset);
      assert word == WordAt(data, bytes, w);
      return;
    }
    word := AssembleWord(data, offset, remaining);
  }

  /** Ors `n` bytes into a zeroed word, each shifted to its place. */
  method AssembleWord(data: seq<Byte>, at: nat, n: nat) returns (word: Word)
    requires n <= 8 && at + n <= |data|
    ensures forall k :: 0 <= k < 64 ==> word[k] == (k / 8 < n && data[at + k / 8][k % 8])
  {
    word := Mask(64, 0, 0);
    for i := 0 to n
      invariant forall k :: 0 <= k < 64 ==> word[k] == (k / 8 < i && data[at + k / 8][k % 8])
    {
      var shifted := ShiftedByte(data[at + i], 8 * i);
      word := Or(word, shifted);
    }
  }

  /** Whether all bits of `[lo, hi)` are set, tested with one comparison per word. */
  method AllBitsSet(data: seq<Byte>, count: nat, lo: nat, hi: nat) returns (r: bool)
    requires ByteSize(count) <= |data| && lo < hi <= count
    ensures r <==> AllSet(data, lo, hi)
  {
    var first, last := lo / 64, (hi - 1) / 64;
    var a, b := lo % 64, (hi - 1) % 64 + 1;
    var firstMask, lastMask := Not(LowerBitsMask(a)), LowerBitsMask(b);
    var bytes := ByteSize(count);
    WindowMask(a, 64);
    WindowMask(0, b);
    var word := LoadWordChecked(data, bytes, first);
    if first == last {
      var mask := And(firstMask, lastMask);
      WindowMask(a, b);
      MaskedWordFull(data, count, first, a, b);
      return And(word, mask) == mask;
    }
    MaskedWordFull(data, count, first, a, 64);
    if And(word, firstMask) != firstMask {
      return false;
    }
    var w := first + 1;
    while w < last
      invariant first < w <= last
      invariant AllSet(data, lo, 64 * w)
    {
      var middle := LoadWord(data, 8 * w);
      MaskedWordFull(data, count, w, 0, 64);
      assert middle == WordAt(data, bytes, w);
      assert And(middle, Mask(64, 0, 64)) == middle;
      if middle != Mask(64, 0, 64) {
        return false;
      }
      w := w + 1;
    }
    word := LoadWordChecked(data, bytes, last);
    MaskedWordFull(data, count, last, 0, b);
    return And(word, lastMask) == lastMask;
  }
}
