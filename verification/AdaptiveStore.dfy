/** `AdaptiveStore`: the inverse lookup table, kept as a dense array or as a sparse map. */
module AdaptiveStores {
  import opened Bits
  import opened Chunks
  import opened ArrayStores

  const INVALID := -1
  const INT32_MAX := 0x7FFF_FFFF

  datatype Fault =
    | NegativeKey
    | KeyOutOfRange
    | ValueOverflow
    | DuplicateKey
    | NotContiguous
    | NoAppendStorage
    | StorageExhausted

  // ---- one entry -----------------------------------------------------------------

  /** `CheckKey` followed by `CheckValue`. */
  function CheckEntry(key: int, keyBegin: nat, keyEnd: nat, value: nat): (fault: Option<Fault>)
    ensures fault.None? <==> keyBegin <= key < keyEnd && value <= INT32_MAX
  {
    if key < 0 then Some(NegativeKey)
    else if key < keyBegin || key >= keyEnd then Some(KeyOutOfRange)
    else if value > INT32_MAX then Some(ValueOverflow)
    else None
  }

  // ---- filling the two representations ---------------------------------------------

  datatype Outcome<T> = Filled(value: T) | Rejected(fault: Fault, at: nat, partial: T)

  function Blank(n: nat): (r: seq<int>)
    ensures |r| == n && forall i :: 0 <= i < n ==> r[i] == INVALID
  {
    if n == 0 then [] else Blank(n - 1) + [INVALID]
  }

  /** The dense table after the first `n` keys, or the first key that is refused. */
  ghost function FillDense(keys: seq<int>, n: nat, keyBegin: nat, keyEnd: nat, valueBegin: nat): (r: Outcome<seq<int>>)
    requires n <= |keys| && keyBegin <= keyEnd
    ensures r.Filled? ==> |r.value| == keyEnd - keyBegin
  {
    if n == 0 then Filled(Blank(keyEnd - keyBegin))
    else
      var before := FillDense(keys, n - 1, keyBegin, keyEnd, valueBegin);
      if before.Rejected? then before
      else
        var key, value := keys[n - 1], valueBegin + n - 1;
        match CheckEntry(key, keyBegin, keyEnd, value)
        case Some(fault) => Rejected(fault, n - 1, [])
        case None =>
          if before.value[key - keyBegin] != INVALID then Rejected(DuplicateKey, n - 1, [])
          else Filled(before.value[key - keyBegin := value])
  }

  /** Filling succeeds with `values`. */
  ghost predicate FillsTo(keys: seq<int>, keyBegin: nat, keyEnd: nat, valueBegin: nat, values: seq<int>)
    requires keyBegin <= keyEnd
  {
    FillDense(keys, |keys|, keyBegin, keyEnd, valueBegin) == Filled(values)
  }

  /** Filling stops at a key that is refused for `fault`. */
  ghost predicate Refuses(keys: seq<int>, keyBegin: nat, keyEnd: nat, valueBegin: nat, fault: Fault)
    requires keyBegin <= keyEnd
  {
    var r := FillDense(keys, |keys|, keyBegin, keyEnd, valueBegin);
    r.Rejected? && r.fault == fault
  }

  /** The sparse table after the first `n` keys, or the first key that is refused. */
  ghost function FillSparse(keys: seq<int>, n: nat, keyCount: nat): (r: Outcome<map<int, int>>)
    requires n <= |keys|
  {
    if n == 0 then Filled(map[])
    else
      var before := FillSparse(keys, n - 1, keyCount);
      if before.Rejected? then before
      else
        var key := keys[n - 1];
        match CheckEntry(key, 0, keyCount, n - 1)
        case Some(fault) => Rejected(fault, n - 1, before.value)
        case None =>
          if key in before.value then Rejected(DuplicateKey, n - 1, before.value)
          else Filled(before.value[key := n - 1])
  }

  predicate InRange(keys: seq<int>, v: nat, keyBegin: nat, keyEnd: nat)
    requires v < |keys|
  {
    keyBegin <= keys[v] < keyEnd
  }

  predicate Differ(keys: seq<int>, v: nat, w: nat)
    requires v < |keys| && w < |keys|
  {
    keys[v] != keys[w]
  }

  /** The first `n` keys are pairwise distinct. */
  ghost predicate Distinct(keys: seq<int>, n: nat)
    requires n <= |keys|
  {
    forall v, w :: 0 <= v < w < n ==> Differ(keys, v, w)
  }

  lemma DistinctOneMore(keys: seq<int>, n: nat)
    requires n < |keys| && Distinct(keys, n)
    ensures Distinct(keys, n + 1) <==> forall v :: 0 <= v < n ==> keys[v] != keys[n]
  {
    if Distinct(keys, n + 1) {
      forall v | 0 <= v < n ensures keys[v] != keys[n] {
        assert Differ(keys, v, n);
      }
    }
  }

  /** The first `n` keys are distinct, in range, and their values fit. */
  ghost predicate Acceptable(keys: seq<int>, n: nat, keyBegin: nat, keyEnd: nat, valueBegin: nat)
    requires n <= |keys|
  {
    && (forall v :: 0 <= v < n ==> InRange(keys, v, keyBegin, keyEnd))
    && Distinct(keys, n)
    && (n > 0 ==> valueBegin + n - 1 <= INT32_MAX)
  }

  /** Key `keys[v]` holds value `valueBegin + v`. */
  ghost predicate Placed(values: seq<int>, keys: seq<int>, keyBegin: nat, valueBegin: nat, v: nat)
    requires v < |keys|
  {
    0 <= keys[v] - keyBegin < |values| && values[keys[v] - keyBegin] == valueBegin + v
  }

  /** Slot `k` is empty or holds the value of a key among the first `n`. */
  ghost predicate Backed(values: seq<int>, keys: seq<int>, n: nat, keyBegin: nat, valueBegin: nat, k: nat)
    requires n <= |keys| && k < |values|
  {
    || values[k] == INVALID
    || (0 <= values[k] - valueBegin < n && keys[values[k] - valueBegin] == keyBegin + k)
  }

  /** `values` holds value `valueBegin + v` at key `keys[v]` for each `v < n`, and nothing else. */
  ghost predicate DenseInverts(values: seq<int>, keys: seq<int>, n: nat, keyBegin: nat, valueBegin: nat)
    requires n <= |keys|
  {
    && (forall v :: 0 <= v < n ==> Placed(values, keys, keyBegin, valueBegin, v))
    && (forall k :: 0 <= k < |values| ==> Backed(values, keys, n, keyBegin, valueBegin, k))
  }

  /** A dense table is filled exactly when the keys are acceptable, and it then inverts them. */
  lemma {:induction false} FillDenseInverts(keys: seq<int>, n: nat, keyBegin: nat, keyEnd: nat, valueBegin: nat)
    requires n <= |keys| && keyBegin <= keyEnd
    ensures FillDense(keys, n, keyBegin, keyEnd, valueBegin).Filled?
       <==> Acceptable(keys, n, keyBegin, keyEnd, valueBegin)
    ensures FillDense(keys, n, keyBegin, keyEnd, valueBegin).Filled? ==>
              DenseInverts(FillDense(keys, n, keyBegin, keyEnd, valueBegin).value, keys, n, keyBegin, valueBegin)
  {
    if n > 0 {
      FillDenseInverts(keys, n - 1, keyBegin, keyEnd, valueBegin);
      var before := FillDense(keys, n - 1, keyBegin, keyEnd, valueBegin);
      var key, value := keys[n - 1], valueBegin + n - 1;
      assert Acceptable(keys, n, keyBegin, keyEnd, valueBegin) ==> InRange(keys, n - 1, keyBegin, keyEnd);
      if before.Filled? {
        DistinctOneMore(keys, n - 1);
        if CheckEntry(key, keyBegin, keyEnd, value).None? {
          DenseEntry(before.value, keys, n - 1, keyBegin, valueBegin);
        }
      }
    }
  }

  /** One more key: it collides exactly when its slot is taken, and otherwise extends the table. */
  lemma DenseEntry(values: seq<int>, keys: seq<int>, n: nat, keyBegin: nat, valueBegin: nat)
    requires n < |keys| && DenseInverts(values, keys, n, keyBegin, valueBegin)
    requires 0 <= keys[n] - keyBegin < |values|
    ensures values[keys[n] - keyBegin] == INVALID <==> forall v :: 0 <= v < n ==> keys[v] != keys[n]
    ensures values[keys[n] - keyBegin] == INVALID ==>
              DenseInverts(values[keys[n] - keyBegin := valueBegin + n], keys, n + 1, keyBegin, valueBegin)
  {
    var slot := keys[n] - keyBegin;
    assert Backed(values, keys, n, keyBegin, valueBegin, slot);
    if values[slot] == INVALID {
      var next, m := values[slot := valueBegin + n], n + 1;
      forall v: nat | v < n ensures keys[v] != keys[n] && Placed(next, keys, keyBegin, valueBegin, v) {
        assert Placed(values, keys, keyBegin, valueBegin, v);
      }
      forall k: nat | k < |next| ensures Backed(next, keys, m, keyBegin, valueBegin, k) {
        assert Backed(values, keys, n, keyBegin, valueBegin, k);
      }
    }
  }

  ghost predicate SparseInverts(entries: map<int, int>, keys: seq<int>, n: nat)
    requires n <= |keys|
  {
    && (forall v :: 0 <= v < n ==> keys[v] in entries && entries[keys[v]] == v)
    && (forall k :: k in entries ==> 0 <= entries[k] < n && keys[entries[k]] == k)
  }

  lemma {:induction false} FillSparseInverts(keys: seq<int>, n: nat, keyCount: nat)
    requires n <= |keys|
    ensures FillSparse(keys, n, keyCount).Filled? <==> Acceptable(keys, n, 0, keyCount, 0)
    ensures FillSparse(keys, n, keyCount).Filled? ==> SparseInverts(FillSparse(keys, n, keyCount).value, keys, n)
  {
    if n > 0 {
      FillSparseInverts(keys, n - 1, keyCount);
      assert Acceptable(keys, n, 0, keyCount, 0) ==> InRange(keys, n - 1, 0, keyCount);
      if FillSparse(keys, n - 1, keyCount).Filled? {
        DistinctOneMore(keys, n - 1);
      }
    }
  }

  // ---- lookup --------------------------------------------------------------------

  datatype Table = Dense(values: seq<int>) | Sparse(entries: map<int, int>)

  function Get(table: Table, key: int): int {
    if key < 0 then INVALID
    else match table
      case Sparse(entries) => if key in entries then entries[key] else INVALID
      case Dense(values) => if key < |values| then values[key] else INVALID
  }

  /** The table a call to `Set` leaves behind in each representation: a dense array is stored only
      once it is complete, a map is filled in place. */
  ghost function DenseAfterSet(keys: seq<int>, keyCount: nat): Table {
    var r := FillDense(keys, |keys|, 0, keyCount, 0);
    Dense(if r.Filled? then r.value else [])
  }

  ghost function SparseAfterSet(keys: seq<int>, keyCount: nat): Table {
    var r := FillSparse(keys, |keys|, keyCount);
    Sparse(if r.Filled? then r.value else r.partial)
  }

  /** After an accepted `Set`, `Get` is the inverse of `keys`. */
  ghost predicate Inverts(table: Table, keys: seq<int>) {
    && (forall v :: 0 <= v < |keys| ==> Get(table, keys[v]) == v)
    && (forall key :: key !in keys ==> Get(table, key) == INVALID)
  }

  /** Key number `j` is the first that cannot be taken, for the reason `fault`. */
  ghost predicate FirstFault(keys: seq<int>, keyBegin: nat, keyEnd: nat, valueBegin: nat, j: nat, fault: Fault)
    requires j < |keys|
  {
    && Acceptable(keys, j, keyBegin, keyEnd, valueBegin)
    && match fault
       case NegativeKey => keys[j] < 0
       case KeyOutOfRange => keys[j] >= 0 && !(keyBegin <= keys[j] < keyEnd)
       case ValueOverflow => keyBegin <= keys[j] < keyEnd && valueBegin + j > INT32_MAX
       case DuplicateKey => keyBegin <= keys[j] < keyEnd && valueBegin + j <= INT32_MAX && keys[j] in keys[..j]
       case _ => false
  }

  /** Filling stops at the first bad key and reports it. */
  lemma {:induction false} FillReports(keys: seq<int>, n: nat, keyBegin: nat, keyEnd: nat, valueBegin: nat)
    requires n <= |keys| && keyBegin <= keyEnd && FillDense(keys, n, keyBegin, keyEnd, valueBegin).Rejected?
    ensures var r := FillDense(keys, n, keyBegin, keyEnd, valueBegin);
            r.at < n && FirstFault(keys, keyBegin, keyEnd, valueBegin, r.at, r.fault)
  {
    var before := FillDense(keys, n - 1, keyBegin, keyEnd, valueBegin);
    if before.Rejected? {
      FillReports(keys, n - 1, keyBegin, keyEnd, valueBegin);
    } else {
      var j := n - 1;
      FillDenseInverts(keys, j, keyBegin, keyEnd, valueBegin);
      if keyBegin <= keys[j] < keyEnd {
        assert Backed(before.value, keys, j, keyBegin, valueBegin, keys[j] - keyBegin);
        if before.value[keys[j] - keyBegin] != INVALID {
          assert keys[..j][before.value[keys[j] - keyBegin] - valueBegin] == keys[j];
        }
      }
    }
  }

  lemma {:induction false} FaultsAgree(keys: seq<int>, n: nat, keyCount: nat)
    requires n <= |keys|
    ensures var d, s := FillDense(keys, n, 0, keyCount, 0), FillSparse(keys, n, keyCount);
            && (d.Filled? <==> s.Filled?)
            && (d.Rejected? ==> d.fault == s.fault && d.at == s.at)
  {
    if n > 0 {
      FaultsAgree(keys, n - 1, keyCount);
      FillDenseInverts(keys, n, 0, keyCount, 0);
      FillSparseInverts(keys, n, keyCount);
    }
  }

  lemma DenseLookup(values: seq<int>, keys: seq<int>)
    requires DenseInverts(values, keys, |keys|, 0, 0)
    ensures Inverts(Dense(values), keys)
  {
    forall v | 0 <= v < |keys| ensures Get(Dense(values), keys[v]) == v {
      assert Placed(values, keys, 0, 0, v);
    }
    forall key | key !in keys ensures Get(Dense(values), key) == INVALID {
      if 0 <= key < |values| {
        assert Backed(values, keys, |keys|, 0, 0, key);
      }
    }
  }

  /** Both representations accept and refuse the same inputs, at the same key and for the same
      reason, and after an accepted input each of them inverts the keys, so that they answer every
      lookup alike. */
  lemma RepresentationIndependent(keys: seq<int>, keyCount: nat)
    ensures var d, s := FillDense(keys, |keys|, 0, keyCount, 0), FillSparse(keys, |keys|, keyCount);
            && (d.Filled? <==> Acceptable(keys, |keys|, 0, keyCount, 0))
            && (d.Filled? <==> s.Filled?)
            && (d.Rejected? ==> d.fault == s.fault && d.at == s.at)
    ensures Acceptable(keys, |keys|, 0, keyCount, 0) ==>
              Inverts(DenseAfterSet(keys, keyCount), keys) && Inverts(SparseAfterSet(keys, keyCount), keys)
  {
    FaultsAgree(keys, |keys|, keyCount);
    FillDenseInverts(keys, |keys|, 0, keyCount, 0);
    FillSparseInverts(keys, |keys|, keyCount);
    if Acceptable(keys, |keys|, 0, keyCount, 0) {
      DenseLookup(DenseAfterSet(keys, keyCount).values, keys);
    }
  }

  /** Two tables that invert the same keys answer every lookup alike. */
  lemma InverseIsUnique(a: Table, b: Table, keys: seq<int>, key: int)
    requires Inverts(a, keys) && Inverts(b, keys)
    ensures Get(a, key) == Get(b, key)
  {
    if key in keys {
      var v :| 0 <= v < |keys| && keys[v] == key;
    }
  }

  /** The keys stop at the first one exactly when that key is out of range. */
  lemma FirstKeyRefused(keys: seq<int>, keyCount: nat)
    requires |keys| > 0
    ensures FillSparse(keys, 1, keyCount).Rejected? <==> !(0 <= keys[0] < keyCount)
  {
    assert FillSparse(keys, 0, keyCount) == Filled(map[]);
  }

  /** A refused `Set` is where the two differ: the map keeps the keys before the refused one, the
      dense form keeps nothing. They agree on every lookup exactly when the first key is out of range. */
  lemma RefusedSetDiffers(keys: seq<int>, keyCount: nat)
    requires |keys| > 0 && !Acceptable(keys, |keys|, 0, keyCount, 0)
    ensures (forall key :: Get(DenseAfterSet(keys, keyCount), key) == Get(SparseAfterSet(keys, keyCount), key))
       <==> !(0 <= keys[0] < keyCount)
  {
    FillSparseInverts(keys, |keys|, keyCount);
    FaultsAgree(keys, |keys|, keyCount);
    PartialIsPrefix(keys, |keys|, keyCount);
    FirstKeyRefused(keys, keyCount);
    var at := FillSparse(keys, |keys|, keyCount).at;
    FillSparseInverts(keys, at, keyCount);
    if at > 0 {
      assert InRange(keys, 0, 0, keyCount);
      assert Get(SparseAfterSet(keys, keyCount), keys[0]) == 0;
      assert Get(DenseAfterSet(keys, keyCount), keys[0]) == INVALID;
    }
  }

  /** A repeated key: the map keeps the first of the two, the dense form nothing. */
  lemma DuplicateKeyDiffers(keyCount: nat)
    requires keyCount > 0
    ensures !Acceptable([0, 0], 2, 0, keyCount, 0)
    ensures Get(SparseAfterSet([0, 0], keyCount), 0) == 0 && Get(DenseAfterSet([0, 0], keyCount), 0) == INVALID
  {
    var keys := [0, 0];
    assert !Differ(keys, 0, 1);
    assert FillSparse(keys, 1, keyCount) == Filled(map[0 := 0]) by {
      assert FillSparse(keys, 0, keyCount) == Filled(map[]);
    }
    FaultsAgree(keys, 2, keyCount);
  }

  /** What a refused map keeps is the table of the keys before the refused one. */
  lemma {:induction false} PartialIsPrefix(keys: seq<int>, n: nat, keyCount: nat)
    requires n <= |keys| && FillSparse(keys, n, keyCount).Rejected?
    ensures var r := FillSparse(keys, n, keyCount);
            && r.at < n && FillSparse(keys, r.at, keyCount) == Filled(r.partial)
            && FillSparse(keys, r.at + 1, keyCount).Rejected?
  {
    if FillSparse(keys, n - 1, keyCount).Rejected? {
      PartialIsPrefix(keys, n - 1, keyCount);
    }
  }

  // ---- the store -------------------------------------------------------------------

  class AdaptiveStore {
    const dense: ArrayStore<int>
    var sparse: map<int, int>
    var useSparse: bool
    var kind: Kind
    /** Dense storage is backed by a memory-mapped file, which rules out the sparse form. */
    var mapped: bool

    ghost predicate Valid()
      reads this, dense, dense.append
    {
      dense.Valid()
    }

    ghost function Contents(): Table
      requires Valid()
      reads this, dense, dense.append
    {
      if useSparse then Sparse(sparse) else Dense(dense.Contents())
    }

    constructor ()
      ensures Valid() && Contents() == Dense([]) && fresh(dense) && dense.append == null && dense.sealedData.None?
      ensures kind.Sealed? && dense.kind.Sealed? && !useSparse && !mapped
    {
      dense := new ArrayStore<int>(0);
      sparse, useSparse, kind, mapped := map[], false, Sealed, false;
    }

    method SetType(k: Kind)
      requires Valid()
      modifies this, dense
      ensures Valid() && kind == k && dense.kind == k && dense.visible.None?
      ensures useSparse == old(useSparse) && sparse == old(sparse)
      ensures old(dense.append) == null && k.Appendable? ==>
                dense.Open() && fresh(dense.append) && dense.Contents() == []
      ensures old(dense.append) != null || k.Sealed? ==> dense.append == old(dense.append)
      ensures dense.sealedData == old(dense.sealedData)
    {
      kind := k;
      dense.SetType(k);
    }

    method Clear()
      modifies this, dense
      ensures Valid() && Contents() == Dense([]) && kind == old(kind) && mapped == old(mapped)
      ensures dense.append == null && dense.sealedData.None? && !useSparse && sparse == map[]
    {
      dense.Clear();
      sparse, useSparse := map[], false;
    }

    /** The in-place loop over the keys; `fault` is the exception it throws. */
    static method FillValues(keys: seq<int>, keyBegin: nat, keyEnd: nat, valueBegin: nat)
      returns (fault: Option<Fault>, values: seq<int>)
      requires keyBegin <= keyEnd
      ensures match fault
              case None => FillsTo(keys, keyBegin, keyEnd, valueBegin, values)
              case Some(f) => Refuses(keys, keyBegin, keyEnd, valueBegin, f)
    {
      values := Blank(keyEnd - keyBegin);
      var value := 0;
      while value < |keys|
        invariant 0 <= value <= |keys|
        invariant FillDense(keys, value, keyBegin, keyEnd, valueBegin) == Filled(values)
      {
        var key := keys[value];
        fault := CheckEntry(key, keyBegin, keyEnd, valueBegin + value);
        if fault.None? && values[key - keyBegin] != INVALID {
          fault := Some(DuplicateKey);
        }
        if fault.Some? {
          DenseRejectionStays(keys, value + 1, keyBegin, keyEnd, valueBegin);
          return;
        }
        values := values[key - keyBegin := valueBegin + value];
        value := value + 1;
      }
      fault := None;
    }

    /** Replaces the table by the inverse of `keys` over `[0, keyCount)`. A fill of at most a tenth
        goes to the map when sealed heap storage is used, everything else to the array. */
    method Set(keys: seq<int>, keyCount: nat) returns (fault: Option<Fault>)
      requires keyCount <= CAPACITY
      modifies this, dense
      ensures Valid() && kind == old(kind) && mapped == old(mapped)
      ensures dense.append == null || fresh(dense.append)
      ensures fault.None? <==> FillSparse(keys, |keys|, keyCount).Filled?
      ensures fault.Some? ==> exists j :: 0 <= j < |keys| && FirstFault(keys, 0, keyCount, 0, j, fault.value)
      ensures useSparse <==> kind.Sealed? && !mapped && |keys| != 0 && keyCount != 0 && 10 * |keys| <= keyCount
      ensures Contents() == if useSparse then SparseAfterSet(keys, keyCount) else DenseAfterSet(keys, keyCount)
    {
      Clear();
      dense.SetType(kind);
      useSparse := kind.Sealed? && !mapped && |keys| != 0 && keyCount != 0 && 10 * |keys| <= keyCount;
      FaultsAgree(keys, |keys|, keyCount);
      if FillDense(keys, |keys|, 0, keyCount, 0).Rejected? {
        FillReports(keys, |keys|, 0, keyCount, 0);
      }
      if useSparse {
        fault := FillMap(keys, keyCount);
        return;
      }
      var values;
      fault, values := FillValues(keys, 0, keyCount, 0);
      if fault.Some? {
        return;
      }
      if kind.Sealed? {
        dense.Set(values);
      } else {
        var _ := dense.Append(values);
      }
    }

    method FillMap(keys: seq<int>, keyCount: nat) returns (fault: Option<Fault>)
      requires sparse == map[]
      modifies this`sparse
      ensures fault.None? <==> FillSparse(keys, |keys|, keyCount).Filled?
      ensures fault.Some? ==> FillSparse(keys, |keys|, keyCount).fault == fault.value
      ensures Sparse(sparse) == SparseAfterSet(keys, keyCount)
    {
      var value := 0;
      while value < |keys|
        invariant 0 <= value <= |keys|
        invariant FillSparse(keys, value, keyCount) == Filled(sparse)
      {
        var key := keys[value];
        fault := CheckEntry(key, 0, keyCount, value);
        if fault.None? && key in sparse {
          fault := Some(DuplicateKey);
        }
        if fault.Some? {
          SparseRejectionStays(keys, value + 1, keyCount);
          return;
        }
        sparse := sparse[key := value];
        value := value + 1;
      }
      fault := None;
    }

    method Lookup(key: int) returns (value: int)
      requires Valid()
      ensures value == Get(Contents(), key)
    {
      if key < 0 {
        return INVALID;
      }
      if useSparse {
        return if key in sparse then sparse[key] else INVALID;
      }
      var n := dense.Size();
      if key < n {
        value := dense.Get(key);
      } else {
        value := INVALID;
      }
    }

    /** Extends an append-only dense table by the key range `[keyBegin, keyBegin + keyCount)`. With
        append storage that ends at `keyBegin`, only a bad key can be refused. */
    method Append(keys: seq<int>, keyBegin: nat, keyCount: nat, valueBegin: nat)
      returns (fault: Option<Fault>, values: seq<int>)
      requires Valid()
      modifies dense.append
      ensures Valid()
      ensures fault.Some? ==> Contents() == old(Contents())
      ensures fault.None? ==> FillsTo(keys, keyBegin, keyBegin + keyCount, valueBegin, values)
      ensures fault.None? ==> Contents() == Dense(old(dense.Contents()) + values)
      ensures fault.Some? && kind.Appendable? && !useSparse && dense.Open()
              && keyBegin == |old(dense.Contents())| && keyBegin + keyCount <= CAPACITY ==>
                Refuses(keys, keyBegin, keyBegin + keyCount, valueBegin, fault.value)
    {
      values := [];
      if kind.Sealed? || useSparse {
        return Some(NoAppendStorage), values;
      }
      var size := dense.Size();
      if size != keyBegin {
        return Some(NotContiguous), values;
      }
      fault, values := FillValues(keys, keyBegin, keyBegin + keyCount, valueBegin);
      if fault.None? {
        assert |values| == keyCount;
        fault := Extend(values);
      }
    }

    method Extend(values: seq<int>) returns (fault: Option<Fault>)
      requires Valid()
      modifies dense.append
      ensures Valid()
      ensures fault.Some? ==> dense.Contents() == old(dense.Contents())
      ensures dense.Open() && |old(dense.Contents())| + |values| <= CAPACITY ==> fault.None?
      ensures fault.None? ==> dense.Contents() == old(dense.Contents()) + values
    {
      var status := dense.Append(values);
      fault := match status
        case Stored => None
        case NotAppendable => Some(NoAppendStorage)
        case Overflow => Some(StorageExhausted);
    }
  }

  /** Once a key is refused, later keys do not matter. */
  lemma {:induction false} DenseRejectionStays(keys: seq<int>, n: nat, keyBegin: nat, keyEnd: nat, valueBegin: nat)
    requires n <= |keys| && keyBegin <= keyEnd && FillDense(keys, n, keyBegin, keyEnd, valueBegin).Rejected?
    ensures FillDense(keys, |keys|, keyBegin, keyEnd, valueBegin) == FillDense(keys, n, keyBegin, keyEnd, valueBegin)
    decreases |keys| - n
  {
    if n < |keys| { DenseRejectionStays(keys, n + 1, keyBegin, keyEnd, valueBegin); }
  }

  lemma {:induction false} SparseRejectionStays(keys: seq<int>, n: nat, keyCount: nat)
    requires n <= |keys| && FillSparse(keys, n, keyCount).Rejected?
    ensures FillSparse(keys, |keys|, keyCount) == FillSparse(keys, n, keyCount)
    decreases |keys| - n
  {
    if n < |keys| { SparseRejectionStays(keys, n + 1, keyCount); }
  }
}
