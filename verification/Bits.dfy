/** Machine words as little-endian bit sequences.

    A byte is its 8 bits, a 64-bit word its 64 bits, least significant first, which is the order
    in which a little-endian load lays the bits of consecutive bytes. `&`, `|` and `~` work bit by
    bit, `w & (1 << k)` is bit `k`, and `Value` gives the number a word stands for, so that the
    shifted masks of the program can be related to the masks used here. */
module Bits {

  const WORD_BITS := 64

  type Byte = b: seq<bool> | |b| == 8
    witness [false, false, false, false, false, false, false, false]

  type Word = w: seq<bool> | |w| == WORD_BITS
    witness seq(WORD_BITS, _ => false)

  datatype Option<+T> = None | Some(value: T)

  function And(a: seq<bool>, b: seq<bool>): (r: seq<bool>)
    requires |a| == |b|
    ensures |r| == |a|
  {
    seq(|a|, i requires 0 <= i < |a| => a[i] && b[i])
  }

  function Or(a: seq<bool>, b: seq<bool>): (r: seq<bool>)
    requires |a| == |b|
    ensures |r| == |a|
  {
    seq(|a|, i requires 0 <= i < |a| => a[i] || b[i])
  }

  function Not(a: seq<bool>): (r: seq<bool>)
    ensures |r| == |a|
  {
    seq(|a|, i requires 0 <= i < |a| => !a[i])
  }

  /** The `width`-bit word `((1 << count) - 1) << from`. */
  function Mask(width: nat, from: nat, count: nat): (r: seq<bool>)
    ensures |r| == width
  {
    seq(width, i => from <= i < from + count)
  }

  predicate IsZero(w: seq<bool>) {
    forall i :: 0 <= i < |w| ==> !w[i]
  }

  /** The byte `b`, widened to a word and shifted left by `shift` bits. */
  function ShiftedByte(b: Byte, shift: nat): (w: Word) {
    seq(WORD_BITS, k => shift <= k < shift + 8 && b[k - shift])
  }

  // ---- numeric value -------------------------------------------------------

  function Pow2(n: nat): (p: nat)
    ensures p >= 1
  {
    if n == 0 then 1 else 2 * Pow2(n - 1)
  }

  function Value(w: seq<bool>): nat {
    if |w| == 0 then 0 else (if w[0] then 1 else 0) + 2 * Value(w[1..])
  }

  /** `Mask` is the mask that the program writes with two shifts and a subtraction. */
  lemma {:induction false} MaskValue(width: nat, from: nat, count: nat)
    requires from + count <= width
    ensures Value(Mask(width, from, count)) == Pow2(from) * (Pow2(count) - 1)
  {
    var m := Mask(width, from, count);
    if from > 0 {
      MaskValue(width - 1, from - 1, count);
      assert m[1..] == Mask(width - 1, from - 1, count);
      Doubled(from, Pow2(count) - 1);
    } else if count > 0 {
      MaskValue(width - 1, 0, count - 1);
      assert m[1..] == Mask(width - 1, 0, count - 1);
    } else if width > 0 {
      MaskValue(width - 1, 0, 0);
      assert m[1..] == Mask(width - 1, 0, 0);
    }
  }

  lemma Doubled(n: nat, x: nat)
    requires n > 0
    ensures Pow2(n) * x == 2 * (Pow2(n - 1) * x)
  {
  }

  lemma {:induction false} ValueConcat(a: seq<bool>, b: seq<bool>)
    ensures Value(a + b) == Value(a) + Pow2(|a|) * Value(b)
  {
    if a == [] {
      assert a + b == b;
    } else {
      ValueConcat(a[1..], b);
      assert (a + b)[1..] == a[1..] + b;
      Doubled(|a|, Value(b));
    }
  }

  lemma {:induction false} ValueBelow(w: seq<bool>)
    ensures Value(w) < Pow2(|w|)
  {
    if w != [] {
      ValueBelow(w[1..]);
    }
  }

  lemma FromPlace(w: seq<bool>, i: nat)
    requires i < |w|
    ensures Value(w[i..]) == (if w[i] then 1 else 0) + 2 * Value(w[i + 1..])
  {
    assert w[i..][0] == w[i] && w[i..][1..] == w[i + 1..];
  }

  lemma Spread(v: nat, low: nat, p: nat, high: nat, b: bool, h: nat)
    requires v == low + p * high && high == (if b then 1 else 0) + 2 * h
    ensures v == low + (if b then p else 0) + 2 * p * h
  {
    if b {
      assert p * (1 + 2 * h) == p + 2 * p * h;
    } else {
      assert p * (2 * h) == 2 * p * h;
    }
  }

  /** The place of bit `i` in the value of a word, which a shift and a mask find: what is below it is less than
      its weight, and what is above it is a multiple of twice its weight. */
  lemma BitPlace(w: seq<bool>, i: nat)
    requires i < |w|
    ensures Value(w[..i]) < Pow2(i)
    ensures Value(w) == Value(w[..i]) + (if w[i] then Pow2(i) else 0) + 2 * Pow2(i) * Value(w[i + 1..])
  {
    var low, rest, high := w[..i], w[i..], Value(w[i + 1..]);
    ValueBelow(low);
    assert w == low + rest;
    ValueConcat(low, rest);
    FromPlace(w, i);
    Spread(Value(w), Value(low), Pow2(i), Value(rest), w[i], high);
  }

  // ---- population count ----------------------------------------------------

  function Pop(s: seq<bool>): (n: nat)
    ensures n <= |s|
  {
    if |s| == 0 then 0 else (if s[0] then 1 else 0) + Pop(s[1..])
  }

  lemma {:induction false} PopConcat(a: seq<bool>, b: seq<bool>)
    ensures Pop(a + b) == Pop(a) + Pop(b)
  {
    if |a| == 0 {
      assert a + b == b;
    } else {
      PopConcat(a[1..], b);
      assert (a + b)[1..] == a[1..] + b;
    }
  }

  lemma PopSplit(s: seq<bool>, i: nat, j: nat, k: nat)
    requires i <= j <= k <= |s|
    ensures Pop(s[i..k]) == Pop(s[i..j]) + Pop(s[j..k])
  {
    PopConcat(s[i..j], s[j..k]);
    assert s[i..j] + s[j..k] == s[i..k];
  }

  /** How many of the first `k` bits are set. */
  lemma PopOne(b: bool)
    ensures Pop([b]) == if b then 1 else 0
  {
    assert [b][1..] == [];
  }

  lemma PopOneMore(bits: seq<bool>, lo: nat, hi: nat)
    requires lo <= hi < |bits|
    ensures Pop(bits[lo..hi + 1]) == Pop(bits[lo..hi]) + if bits[hi] then 1 else 0
  {
    assert bits[lo..hi + 1] == bits[lo..hi] + [bits[hi]];
    PopConcat(bits[lo..hi], [bits[hi]]);
    PopOne(bits[hi]);
  }

  /** The set bits of a window. */
  ghost function Ones(bits: seq<bool>, lo: nat, hi: nat): set<nat>
    requires lo <= hi <= |bits|
  {
    set p: nat | lo <= p < hi && bits[p]
  }

  lemma OneMoreBit(bits: seq<bool>, lo: nat, hi: nat)
    requires lo <= hi < |bits|
    ensures |Ones(bits, lo, hi + 1)| == |Ones(bits, lo, hi)| + if bits[hi] then 1 else 0
  {
    assert Ones(bits, lo, hi + 1) == Ones(bits, lo, hi) + if bits[hi] then {hi} else {};
  }

  /** The population count is the number of set bits. */
  lemma {:induction false} PopIsOnes(bits: seq<bool>, lo: nat, hi: nat)
    requires lo <= hi <= |bits|
    ensures Pop(bits[lo..hi]) == |Ones(bits, lo, hi)|
  {
    if lo == hi {
      assert bits[lo..hi] == [] && Ones(bits, lo, hi) == {};
    } else {
      PopIsOnes(bits, lo, hi - 1);
      PopOneMore(bits, lo, hi - 1);
      OneMoreBit(bits, lo, hi - 1);
    }
  }

  function Rank(s: seq<bool>, k: nat): nat
    requires k <= |s|
  {
    if k == 0 then 0 else Rank(s, k - 1) + (if s[k - 1] then 1 else 0)
  }

  lemma {:induction false} RankIsPop(s: seq<bool>, lo: nat, hi: nat)
    requires lo <= hi <= |s|
    ensures Rank(s, hi) == Rank(s, lo) + Pop(s[lo..hi])
    decreases hi - lo
  {
    if lo < hi {
      RankIsPop(s, lo, hi - 1);
      PopOneMore(s, lo, hi - 1);
    } else {
      assert s[lo..hi] == [];
    }
  }

  lemma {:induction false} PopZero(s: seq<bool>)
    requires IsZero(s)
    ensures Pop(s) == 0
  {
    if |s| > 0 { PopZero(s[1..]); }
  }

  lemma {:induction false} PopOnes(s: seq<bool>)
    requires forall i :: 0 <= i < |s| ==> s[i]
    ensures Pop(s) == |s|
  {
    if |s| > 0 { PopOnes(s[1..]); }
  }

  /** Clearing one bit lowers the population count by that bit. */
  lemma PopClear(s: seq<bool>, k: nat)
    requires k < |s|
    ensures Pop(s) == Pop(s[k := false]) + (if s[k] then 1 else 0)
  {
    var t := s[k := false];
    assert s == s[..k] + [s[k]] + s[k + 1..];
    assert t == s[..k] + [false] + s[k + 1..];
    PopConcat(s[..k] + [s[k]], s[k + 1..]);
    PopConcat(s[..k] + [false], s[k + 1..]);
    PopConcat(s[..k], [s[k]]);
    PopConcat(s[..k], [false]);
    assert Pop([s[k]]) == if s[k] then 1 else 0;
  }

  /** Masking a word keeps exactly the bits in the masked window. */
  lemma PopMasked(s: seq<bool>, from: nat, count: nat)
    requires from + count <= |s|
    ensures Pop(And(Mask(|s|, from, count), s)) == Pop(s[from..from + count])
  {
    var m := And(Mask(|s|, from, count), s);
    var low, window, high := m[..from], m[from..from + count], m[from + count..];
    assert m == low + window + high;
    assert IsZero(low) && IsZero(high);
    forall i | 0 <= i < count ensures window[i] == s[from..from + count][i] {
      assert m[from + i] == s[from + i];
    }
    assert window == s[from..from + count];
    PopConcat(low + window, high);
    PopConcat(low, window);
    PopZero(low);
    PopZero(high);
  }

  // ---- searching a word ----------------------------------------------------

  /** `__builtin_ctzll`: index of the lowest set bit. */
  function Ctz(w: seq<bool>): (k: nat)
    requires !IsZero(w)
    ensures k < |w| && w[k] && forall i :: 0 <= i < k ==> !w[i]
  {
    if w[0] then 0
    else
      assert exists i :: 0 <= i < |w| && w[i];
      assert !IsZero(w[1..]) by {
        var i :| 0 <= i < |w| && w[i];
        assert w[1..][i - 1];
      }
      1 + Ctz(w[1..])
  }

  /** `__builtin_clzll`: number of clear bits above the highest set one. */
  function Clz(w: seq<bool>): (n: nat)
    requires !IsZero(w)
    ensures n < |w| && w[|w| - 1 - n] && forall i :: |w| - 1 - n < i < |w| ==> !w[i]
  {
    if w[|w| - 1] then 0
    else
      assert !IsZero(w[..|w| - 1]) by {
        var i :| 0 <= i < |w| && w[i];
        assert w[..|w| - 1][i];
      }
      1 + Clz(w[..|w| - 1])
  }

  // ---- packed bitmaps ------------------------------------------------------

  /** Bytes needed for `bits` bits. */
  function ByteSize(bits: nat): nat {
    (bits + 7) / 8
  }

  /** Bit `k` of a packed bitmap: `(bytes[k >> 3] >> (k & 7)) & 1`. */
  predicate BitAt(bytes: seq<Byte>, k: nat)
    requires k / 8 < |bytes|
  {
    bytes[k / 8][k % 8]
  }

  /** Bit `k` has weight `1 << (k & 7)` in the byte `k >> 3`, as the program's masks have it. */
  lemma BitAtPlace(bytes: seq<Byte>, k: nat)
    requires k / 8 < |bytes|
    ensures var byte, j := bytes[k / 8], k % 8;
            && Value(byte[..j]) < Pow2(j)
            && Value(byte) == Value(byte[..j]) + (if BitAt(bytes, k) then Pow2(j) else 0)
                              + 2 * Pow2(j) * Value(byte[j + 1..])
  {
    BitPlace(bytes[k / 8], k % 8);
  }

  /** The first `count` bits of a packed bitmap; padding bits above `count` are not looked at. */
  function Unpack(bytes: seq<Byte>, count: nat): (r: seq<bool>)
    requires ByteSize(count) <= |bytes|
    ensures |r| == count
  {
    seq(count, k requires 0 <= k < count => BitAt(bytes, k))
  }

  lemma UnpackPrefix(bytes: seq<Byte>, count: nat)
    requires ByteSize(count) <= |bytes|
    ensures Unpack(bytes[..ByteSize(count)], count) == Unpack(bytes, count)
  {
    forall k | 0 <= k < count ensures BitAt(bytes[..ByteSize(count)], k) == BitAt(bytes, k) {
    }
  }

  /** The byte at `index` of the packed form of `bits`, zero-padded above `|bits|`. */
  function PackedByte(bits: seq<bool>, index: nat): (b: Byte) {
    seq(8, j requires 0 <= j < 8 => 8 * index + j < |bits| && bits[8 * index + j])
  }

  lemma PackedByteBit(bits: seq<bool>, k: nat)
    ensures PackedByte(bits, k / 8)[k % 8] <==> k < |bits| && bits[k]
  {
  }

  /** A little-endian 64-bit load of 8 bytes starting at `bytes[at]`. */
  function LoadWord(bytes: seq<Byte>, at: nat): (w: Word)
    requires at + 8 <= |bytes|
  {
    seq(WORD_BITS, k requires 0 <= k < WORD_BITS => bytes[at + k / 8][k % 8])
  }

  /** The number that `n` bytes hold, the first one least significant. */
  ghost function BytesValue(bytes: seq<Byte>, at: nat, n: nat): nat
    requires at + n <= |bytes|
    decreases n
  {
    if n == 0 then 0 else Value(bytes[at]) + 256 * BytesValue(bytes, at + 1, n - 1)
  }

  ghost function BytesBits(bytes: seq<Byte>, at: nat, n: nat): (r: seq<bool>)
    requires at + n <= |bytes|
    ensures |r| == 8 * n
    ensures forall k :: 0 <= k < 8 * n ==> r[k] == bytes[at + k / 8][k % 8]
    decreases n
  {
    if n == 0 then [] else bytes[at] + BytesBits(bytes, at + 1, n - 1)
  }

  lemma {:induction false} BytesBitsValue(bytes: seq<Byte>, at: nat, n: nat)
    requires at + n <= |bytes|
    ensures Value(BytesBits(bytes, at, n)) == BytesValue(bytes, at, n)
    decreases n
  {
    if n > 0 {
      BytesBitsValue(bytes, at + 1, n - 1);
      ValueConcat(bytes[at], BytesBits(bytes, at + 1, n - 1));
      assert Pow2(8) == 256;
    }
  }

  /** A load is little-endian. */
  lemma LoadWordValue(bytes: seq<Byte>, at: nat)
    requires at + 8 <= |bytes|
    ensures Value(LoadWord(bytes, at)) == BytesValue(bytes, at, 8)
  {
    BytesBitsValue(bytes, at, 8);
    assert LoadWord(bytes, at) == BytesBits(bytes, at, 8);
  }

  /** A load of 8 bytes is the corresponding 64 bits of the unpacked bitmap. */
  lemma LoadWordBits(bytes: seq<Byte>, at: nat, count: nat)
    requires ByteSize(count) <= |bytes|
    requires 8 * at + WORD_BITS <= count
    ensures at + 8 <= |bytes|
    ensures LoadWord(bytes, at) == Unpack(bytes, count)[8 * at..8 * at + WORD_BITS]
  {
    forall k | 0 <= k < WORD_BITS
      ensures LoadWord(bytes, at)[k] == Unpack(bytes, count)[8 * at + k]
    {
      assert (8 * at + k) / 8 == at + k / 8;
      assert (8 * at + k) % 8 == k % 8;
    }
  }

  // ---- positions of set bits -----------------------------------------------

  /** The indices of the set bits of `bits`, ascending, each shifted up by `base`. */
  function SetBits(bits: seq<bool>, base: nat): (r: seq<int>) {
    if |bits| == 0 then []
    else
      var n := |bits| - 1;
      var rest := SetBits(bits[..n], base);
      if bits[n] then rest + [base + n] else rest
  }

  /** The list grows with every bit looked at. */
  lemma SetBitsStep(bits: seq<bool>, base: nat, n: nat)
    requires n < |bits|
    ensures SetBits(bits[..n + 1], base) == SetBits(bits[..n], base) + if bits[n] then [base + n] else []
  {
    var longer := bits[..n + 1];
    assert longer[..n] == bits[..n] && longer[n] == bits[n];
  }

  /** `SetBits` lists set bits only, in ascending order. */
  lemma {:induction false} SetBitsSound(bits: seq<bool>, base: nat)
    ensures forall i :: 0 <= i < |SetBits(bits, base)| ==>
              base <= SetBits(bits, base)[i] < base + |bits| && bits[SetBits(bits, base)[i] - base]
    ensures forall i, j :: 0 <= i < j < |SetBits(bits, base)| ==> SetBits(bits, base)[i] < SetBits(bits, base)[j]
  {
    if |bits| > 0 {
      SetBitsSound(bits[..|bits| - 1], base);
    }
  }

  /** `SetBits` lists every set bit. */
  lemma {:induction false} SetBitsComplete(bits: seq<bool>, base: nat)
    ensures |SetBits(bits, base)| == Pop(bits)
    ensures forall k :: 0 <= k < |bits| && bits[k] ==> base + k in SetBits(bits, base)
  {
    if |bits| > 0 {
      var n := |bits| - 1;
      SetBitsComplete(bits[..n], base);
      PopConcat(bits[..n], [bits[n]]);
      assert bits == bits[..n] + [bits[n]];
      assert Pop([bits[n]]) == if bits[n] then 1 else 0;
      forall k | 0 <= k < |bits| && bits[k]
        ensures base + k in SetBits(bits, base)
      {
        assert k < n ==> bits[..n][k];
      }
    }
  }

  lemma {:induction false} SetBitsConcat(a: seq<bool>, b: seq<bool>, base: nat)
    ensures SetBits(a + b, base) == SetBits(a, base) + SetBits(b, base + |a|)
  {
    if |b| == 0 {
      assert a + b == a;
    } else {
      var n := |b| - 1;
      SetBitsConcat(a, b[..n], base);
      assert (a + b)[..|a| + n] == a + b[..n];
    }
  }
}
