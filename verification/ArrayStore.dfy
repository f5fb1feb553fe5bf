/** `ArrayStore`: a sealed array, or a view of a shared append-only array. */
module ArrayStores {
  import opened Bits
  import opened Chunks
  import opened AppendProtocol
  import opened AppendArray

  datatype Kind = Sealed | Appendable

  datatype StoreStatus = Stored | NotAppendable | Overflow

  /** The first `visible` elements, or all of them when no limit is set. */
  function View<T>(elements: seq<T>, visible: Option<nat>): (r: seq<T>) {
    if visible.Some? && visible.value <= |elements| then elements[..visible.value] else elements
  }

  class ArrayStore<T(!new)> {
    const zero: T
    var kind: Kind
    var sealedData: Option<seq<T>>
    /** Shared by every copy of this store. */
    var append: AppendArrayData?<T>
    /** `None` follows the storage as it grows; `Some` is a snapshot. */
    var visible: Option<nat>

    ghost predicate Valid()
      reads this, append
    {
      append != null ==> append.Valid()
    }

    ghost function Storage(): (r: seq<T>)
      requires Valid()
      reads this, append
    {
      if kind.Sealed? then if sealedData.Some? then sealedData.value else []
      else if append == null then []
      else append.elements
    }

    /** The elements this store shows. */
    ghost function Contents(): (r: seq<T>)
      requires Valid()
      reads this, append
    {
      View(Storage(), visible)
    }

    /** This store accepts appends. */
    ghost predicate Open()
      reads this
    {
      kind.Appendable? && append != null && visible.None?
    }

    constructor (zero: T)
      ensures Valid() && Contents() == [] && kind.Sealed? && sealedData.None? && append == null && visible.None?
    {
      this.zero := zero;
      kind, sealedData, append, visible := Sealed, None, null, None;
    }

    method SetType(k: Kind)
      requires Valid()
      modifies this
      ensures Valid() && kind == k && visible.None?
      ensures old(append) == null && k.Appendable? ==> append != null && fresh(append) && append.elements == []
      ensures old(append) != null || k.Sealed? ==> append == old(append)
      ensures sealedData == old(sealedData)
    {
      kind := k;
      if kind.Appendable? && append == null {
        append := new AppendArrayData<T>(zero);
      }
      visible := None;
    }

    method Clear()
      modifies this
      ensures Valid() && Contents() == [] && kind == old(kind) && append == null && visible.None? && sealedData.None?
    {
      sealedData, append, visible := None, null, None;
    }

    method Set(data: seq<T>)
      modifies this
      ensures Valid() && Contents() == data && kind.Sealed? && append == null && visible.None?
    {
      Clear();
      kind := Sealed;
      if |data| != 0 {
        sealedData := Some(data);
      }
    }

    method Append(data: seq<T>) returns (status: StoreStatus)
      requires Valid()
      modifies append
      ensures Valid()
      ensures data == [] ==> status.Stored? && Contents() == old(Contents())
      ensures data != [] && !Open() ==> status.NotAppendable? && Contents() == old(Contents())
      ensures data != [] && Open() ==>
                if |old(Contents())| + |data| <= CAPACITY
                then status.Stored? && Contents() == old(Contents()) + data
                else status.Overflow? && Contents() == old(Contents())
    {
      if |data| == 0 {
        return Stored;
      }
      if kind.Sealed? || append == null || visible.Some? {
        return NotAppendable;
      }
      var result, _ := append.Append(data);
      return if result.Ok? then Stored else Overflow;
    }

    method Size() returns (n: nat)
      requires Valid()
      ensures n == |Contents()|
    {
      if kind.Sealed? {
        n := if sealedData.Some? then |sealedData.value| else 0;
      } else if append == null {
        n := 0;
      } else {
        n := append.Size();
      }
      if visible.Some? {
        n := Min(visible.value, n);
      }
    }

    predicate IsEmpty()
      requires Valid()
      reads this, append
      ensures IsEmpty() <==> Contents() == []
    {
      || visible == Some(0)
      || (if kind.Sealed? then sealedData.None? || |sealedData.value| == 0 else append == null || append.committed == 0)
    }

    /** `operator[]`, which does not check its offset against the visible count. */
    method Get(offset: nat) returns (x: T)
      requires Valid() && offset < |Storage()|
      ensures x == Storage()[offset] && (offset < |Contents()| ==> x == Contents()[offset])
    {
      if kind.Sealed? {
        x := sealedData.value[offset];
      } else {
        x := append.Get(offset);
      }
    }

    /** The assignable `operator[]`, which only sealed storage has. */
    method Put(offset: nat, x: T)
      requires Valid() && kind.Sealed? && visible.None? && offset < |Contents()|
      modifies this
      ensures Valid() && Contents() == old(Contents())[offset := x]
      ensures kind == old(kind) && append == old(append) && visible == old(visible)
    {
      sealedData := Some(sealedData.value[offset := x]);
    }

    /** A copy shares the append-only array and freezes the visible count. */
    method Copy() returns (copy: ArrayStore<T>)
      requires Valid()
      ensures fresh(copy) && copy.Valid() && copy.Contents() == Contents()
      ensures copy.append == append && copy.kind == kind && copy.visible == Some(|Contents()|)
    {
      var n := Size();
      copy := new ArrayStore<T>(zero);
      copy.kind, copy.sealedData, copy.append, copy.visible := kind, sealedData, append, Some(n);
    }

    method Prefix(count: nat) returns (copy: ArrayStore<T>)
      requires Valid()
      ensures fresh(copy) && copy.Valid()
      ensures copy.Contents() == Contents()[..Min(count, |Contents()|)]
      ensures copy.append == append && copy.kind == kind && copy.visible == Some(Min(count, |Contents()|))
    {
      copy := Copy();
      var n := copy.Size();
      copy.visible := Some(Min(count, n));
    }

    /** A snapshot keeps its size and its elements whatever is appended to the array it shares. */
    twostate lemma SnapshotUnchanged()
      requires old(Valid()) && Valid() && unchanged(this)
      requires visible.Some? && visible.value == |old(Contents())|
      requires append != null ==> old(append.elements) <= append.elements
      ensures Contents() == old(Contents())
    {
    }
  }
}
