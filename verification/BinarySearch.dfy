/** Searches in a sorted array of hashes: the chunked kernels against the scalar ones. */
module BinarySearches {
  import opened Bits

  const CHUNK := 8

  /** The kernels return an `int`, so the array has fewer than 2^31 entries. */
  ghost predicate Searchable(data: seq<nat>) {
    && |data| < 0x8000_0000
    && forall i, j :: 0 <= i <= j < |data| ==> data[i] <= data[j]
  }

  /** `r` is the least index holding at least `target`, -1 if there is none. */
  ghost predicate IsLowerBound(data: seq<nat>, target: nat, r: int) {
    if r == -1 then forall i :: 0 <= i < |data| ==> data[i] < target
    else 0 <= r < |data| && data[r] >= target && forall i :: 0 <= i < r ==> data[i] < target
  }

  /** `r` is an index holding `key`, -1 if there is none. */
  ghost predicate Finds(data: seq<nat>, key: nat, r: int) {
    if r == -1 then key !in data else 0 <= r < |data| && data[r] == key
  }

  // ---- the scalar kernels --------------------------------------------------------------------------

  /** What is before `left` is too small; what is after `right`, if anything, is not needed: the entry at
      `right` is large enough already. */
  ghost predicate Narrowed(data: seq<nat>, target: nat, left: int, right: int) {
    && 0 <= left <= right + 1 <= |data|
    && (forall i :: 0 <= i < left ==> data[i] < target)
    && (right < |data| - 1 ==> left <= right && data[right] >= target)
  }

  /** The scalar loop from `lo` to `hi`, both included. */
  method ScalarLowerBound(data: seq<nat>, target: nat, lo: int, hi: int) returns (result: int)
    requires Searchable(data) && Narrowed(data, target, lo, hi)
    ensures IsLowerBound(data, target, result)
  {
    var left, right := lo, hi;
    result := -1;
    while left <= right
      invariant 0 <= left <= right + 1 <= hi + 1
      invariant forall i :: 0 <= i < left ==> data[i] < target
      invariant if result == -1 then right == hi else result == right + 1 <= hi && data[result] >= target
    {
      var mid := left + (right - left) / 2;
      if data[mid] >= target {
        result := mid;
        right := mid - 1;
      } else {
        left := mid + 1;
      }
    }
  }

  method LowerBoundRef(data: seq<nat>, target: nat) returns (result: int)
    requires Searchable(data)
    ensures IsLowerBound(data, target, result)
  {
    result := ScalarLowerBound(data, target, 0, |data| - 1);
  }

  /** The scalar search for a key finds its first occurrence. */
  method FindRef(data: seq<nat>, key: nat) returns (result: int)
    requires Searchable(data)
    ensures Finds(data, key, result)
    ensures result >= 0 ==> IsLowerBound(data, key, result)
  {
    var left, right := 0, |data| - 1;
    result := -1;
    while left <= right
      invariant 0 <= left <= right + 1 <= |data|
      invariant forall i :: 0 <= i < left ==> data[i] < key
      invariant result == -1 ==> forall i :: right < i < |data| ==> data[i] > key
      invariant result != -1 ==> result == right + 1 < |data| && data[result] == key
    {
      var mid := left + (right - left) / 2;
      if data[mid] < key {
        left := mid + 1;
      } else if key < data[mid] {
        right := mid - 1;
      } else {
        result := mid;
        right := mid - 1;
      }
    }
  }

  // ---- the chunked lower bound -----------------------------------------------------------------------

  /** Lane `i` of the comparison of eight entries with the target. */
  function GeMask(data: seq<nat>, at: nat, target: nat): (mask: seq<bool>)
    requires at + CHUNK <= |data|
    ensures |mask| == CHUNK
  {
    seq(CHUNK, i requires 0 <= i < CHUNK => data[at + i] >= target)
  }

  lemma GeMaskZero(data: seq<nat>, at: nat, target: nat)
    requires Searchable(data) && at + CHUNK <= |data|
    ensures IsZero(GeMask(data, at, target)) <==> data[at + CHUNK - 1] < target
  {
    var mask := GeMask(data, at, target);
    assert mask[CHUNK - 1] == (data[at + CHUNK - 1] >= target);
    forall i | 0 <= i < CHUNK && mask[i] ensures data[at + CHUNK - 1] >= target {
      assert data[at + i] <= data[at + CHUNK - 1];
    }
  }

  /** The chunked lower bound. A chunk is always whole and inside the range still searched: its guards never
      fail, and the scalar step inside the loop is never taken. */
  method LowerBoundChunked(data: seq<nat>, target: nat) returns (result: int)
    requires Searchable(data)
    ensures IsLowerBound(data, target, result)
  {
    if |data| == 0 {
      return -1;
    }
    var left, right := 0, |data| - 1;
    while right - left + 1 >= CHUNK * 4
      invariant Narrowed(data, target, left, right)
    {
      var mid := left + (right - left) / 2;
      var aligned := mid / CHUNK * CHUNK;
      if aligned + CHUNK - 1 >= |data| {
        aligned := |data| - CHUNK;
      }
      if aligned < left {
        aligned := left;
      }
      if aligned + CHUNK <= |data| {
        GeMaskZero(data, aligned, target);
        if !IsZero(GeMask(data, aligned, target)) {
          right := aligned + CHUNK - 1;
        } else {
          left := aligned + CHUNK;
        }
      } else {
        assert false;
      }
    }
    result := ScalarLowerBound(data, target, left, right);
  }

  // ---- the chunked search for a key ----------------------------------------------------------------------

  function EqMask(data: seq<nat>, at: nat, key: nat): (mask: seq<bool>)
    requires at + CHUNK <= |data|
    ensures |mask| == CHUNK
    ensures forall i :: 0 <= i < CHUNK ==> mask[i] == (data[at + i] == key)
  {
    seq(CHUNK, i requires 0 <= i < CHUNK => data[at + i] == key)
  }

  lemma EqMaskZero(data: seq<nat>, at: nat, key: nat, i: nat)
    requires at + CHUNK <= |data| && IsZero(EqMask(data, at, key)) && at <= i < at + CHUNK
    ensures data[i] != key
  {
    assert !EqMask(data, at, key)[i - at];
  }

  /** The key is nowhere outside `left .. right`, which may be empty. */
  ghost predicate Between(data: seq<nat>, key: nat, left: int, right: int) {
    && 0 <= left <= |data| && -1 <= right < |data|
    && forall i :: 0 <= i < |data| && data[i] == key ==> left <= i <= right
  }

  /** Up to 32 entries: whole chunks, then one entry at a time. */
  method FindSmall(data: seq<nat>, key: nat) returns (result: int)
    requires |data| <= 32
    ensures Finds(data, key, result)
  {
    var i: nat := 0;
    while i + CHUNK <= |data|
      invariant i <= |data| && i % CHUNK == 0 && forall j :: 0 <= j < i ==> data[j] != key
    {
      var mask := EqMask(data, i, key);
      if !IsZero(mask) {
        return i + Ctz(mask);
      }
      forall j | i <= j < i + CHUNK ensures data[j] != key {
        EqMaskZero(data, i, key, j);
      }
      i := i + CHUNK;
    }
    assert i == |data| / CHUNK * CHUNK;
    while i < |data|
      invariant i <= |data| && forall j :: 0 <= j < i ==> data[j] != key
    {
      if data[i] == key {
        return i;
      }
      i := i + 1;
    }
    result := -1;
  }

  /** A chunk without the key leaves it on one side, whichever side of `left` the chunk starts. */
  lemma ChunkSides(data: seq<nat>, key: nat, left: int, right: int, at: nat)
    requires Searchable(data) && Between(data, key, left, right) && at + CHUNK <= |data|
    requires IsZero(EqMask(data, at, key))
    ensures data[at + CHUNK / 2] < key ==> forall i :: 0 <= i < |data| && data[i] == key ==> at + CHUNK <= i
    ensures data[at + CHUNK / 2] >= key ==> forall i :: 0 <= i < |data| && data[i] == key ==> i < at
  {
    forall i | 0 <= i < |data| && data[i] == key ensures i < at || at + CHUNK <= i {
      if at <= i < at + CHUNK {
        EqMaskZero(data, at, key, i);
      }
    }
  }

  /** Narrows the range chunk by chunk until fewer than 16 entries are left, or finds the key. The chunk may
      start before `left`; it always ends inside the range, so the scalar step is never taken. */
  method NarrowByChunks(data: seq<nat>, key: nat) returns (found: Option<nat>, left: int, right: int)
    requires Searchable(data)
    ensures found.Some? ==> found.value < |data| && data[found.value] == key
    ensures found.None? ==> Between(data, key, left, right)
  {
    left, right := 0, |data| - 1;
    while right - left + 1 >= CHUNK * 2
      invariant Between(data, key, left, right)
    {
      var mid := left + (right - left) / 2;
      var start := if left > mid - CHUNK / 2 then left else mid - CHUNK / 2;
      start := start / CHUNK * CHUNK;
      if start + CHUNK <= |data| && start + CHUNK - 1 <= right {
        var mask := EqMask(data, start, key);
        if !IsZero(mask) {
          return Some(start + Ctz(mask)), left, right;
        }
        ChunkSides(data, key, left, right, start);
        if data[start + CHUNK / 2] < key {
          left := start + CHUNK;
        } else {
          right := start - 1;
        }
      } else {
        assert false;
      }
    }
    found := None;
  }

  /** The chunked search finds an occurrence exactly when there is one. */
  method FindChunked(data: seq<nat>, key: nat) returns (result: int)
    requires Searchable(data)
    ensures Finds(data, key, result)
  {
    if |data| == 0 {
      return -1;
    }
    if |data| <= 32 {
      result := FindSmall(data, key);
      return;
    }
    var left, right := 0, |data| - 1;
    if |data| > 128 {
      var found;
      found, left, right := NarrowByChunks(data, key);
      if found.Some? {
        return found.value;
      }
    }
    while left <= right
      invariant Between(data, key, left, right)
      decreases right - left
    {
      var mid := left + (right - left) / 2;
      if data[mid] == key {
        return mid;
      } else if data[mid] < key {
        left := mid + 1;
      } else {
        right := mid - 1;
      }
    }
    result := -1;
  }

  // ---- chunked and scalar agree --------------------------------------------------------------------------

  lemma LowerBoundsAgree(data: seq<nat>, target: nat, chunked: int, scalar: int)
    requires IsLowerBound(data, target, chunked) && IsLowerBound(data, target, scalar)
    ensures chunked == scalar
  {
  }

  /** Both searches find the key or neither does; where they find it they may differ only by equal entries,
      and the scalar one is first. */
  lemma FindsAgree(data: seq<nat>, key: nat, chunked: int, scalar: int)
    requires Searchable(data) && Finds(data, key, chunked) && Finds(data, key, scalar)
    requires scalar >= 0 ==> IsLowerBound(data, key, scalar)
    ensures chunked == -1 <==> scalar == -1
    ensures chunked >= 0 ==> 0 <= scalar <= chunked && forall i :: scalar <= i <= chunked ==> data[i] == key
  {
    if chunked >= 0 {
      assert data[chunked] in data;
    }
    if scalar >= 0 {
      assert data[scalar] in data;
    }
  }
}
