/** The append-only chunked array itself. */
module AppendArray {
  import opened Chunks
  import opened AppendProtocol

  datatype Status = Ok | SizeOverflow | CapacityExhausted

  class AppendArrayData<T(!new)> {
    const zero: T
    var chunks: seq<seq<T>>
    var committed: nat
    /** The elements below the committed count. */
    ghost var elements: seq<T>

    /** The protocol state in the middle of an append of `data`, `written` elements done. */
    ghost function Busy(data: seq<T>, written: nat): Store<T>
      reads this
    {
      Store(chunks, elements, committed, Appending(data, written))
    }

    /** The protocol state between two calls. */
    ghost function Quiet(): Store<T>
      reads this
    {
      Store(chunks, elements, committed, Idle)
    }

    ghost predicate Valid()
      reads this
    {
      Inv(Quiet())
    }

    constructor (zero: T)
      ensures Valid() && elements == []
    {
      this.zero := zero;
      chunks := seq(MAX_CHUNKS, _ => []);
      committed := 0;
      elements := [];
    }

    /** Appends `data`, or refuses and changes nothing. The states passed through, returned as
        `trace`, are steps of the protocol, so everything proved of its runs holds while this
        executes. */
    method Append(data: seq<T>) returns (status: Status, ghost trace: seq<Store<T>>)
      requires Valid()
      modifies this
      ensures Valid()
      ensures status.Ok? <==> |old(elements)| + |data| <= CAPACITY
      ensures status.SizeOverflow? <==> |old(elements)| + |data| > SIZE_MAX
      ensures status.Ok? ==> elements == old(elements) + data
      ensures !status.Ok? ==> chunks == old(chunks) && committed == old(committed) && elements == old(elements)
      ensures Steps(trace) && trace[0] == old(Quiet()) && trace[|trace| - 1] == Quiet()
    {
      trace := [Quiet()];
      var begin := committed;
      if |data| > SIZE_MAX - begin {
        return SizeOverflow, trace;
      }
      var end := begin + |data|;
      if end != 0 {
        ChunkTableCapacity(end - 1);
        if ChunkIndex(end - 1) >= MAX_CHUNKS {
          return CapacityExhausted, trace;
        }
      }
      assert Begin(Quiet(), Busy(data, 0), data);
      OneMoreStep(trace, Busy(data, 0));
      trace := trace + [Busy(data, 0)];
      if end != 0 {
        trace := EnsureCapacity(end, data, trace);
      }

      var remaining := |data|;
      var offset := begin;
      while remaining != 0
        invariant offset + remaining == end && begin <= offset && committed == begin && elements == old(elements)
        invariant Writing(data, offset - begin, trace) && trace[0] == old(Quiet())
        invariant end != 0 ==> Allocated(ChunkIndex(end - 1))
      {
        ChunkIndexMonotone(offset, end - 1);
        var chunk := ChunkIndex(offset);
        ChunksTile(offset, chunk);
        var chunkOffset := offset - ChunkBegin(chunk);
        var writeCount := Min(remaining, ChunkSize(chunk) - chunkOffset);
        trace := CopyInto(data, offset, chunk, writeCount, ChunkIndex(end - 1), trace);
        offset := offset + writeCount;
        remaining := remaining - writeCount;
      }
      committed := end;
      elements := elements + data;
      CommitKeeps(trace[|trace| - 1], Quiet());
      OneMoreStep(trace, Quiet());
      trace := trace + [Quiet()];
      status := Ok;
    }

    /** Every chunk up to `last` has been published. */
    ghost predicate Allocated(last: nat)
      reads this
    {
      |chunks| == MAX_CHUNKS && last < MAX_CHUNKS && forall c :: 0 <= c <= last ==> chunks[c] != []
    }

    /** `trace` is a sequence of protocol steps that has led to this state, in the middle of an
        append of `data` with `written` elements in place. */
    ghost predicate Writing(data: seq<T>, written: nat, trace: seq<Store<T>>)
      reads this
    {
      Inv(Busy(data, written)) && Steps(trace) && trace[|trace| - 1] == Busy(data, written)
    }

    /** Publishes every missing chunk up to the one that holds offset `count - 1`. */
    method EnsureCapacity(count: nat, ghost data: seq<T>, ghost before: seq<Store<T>>)
      returns (ghost trace: seq<Store<T>>)
      requires count == committed + |data| && 0 < count <= CAPACITY
      requires Writing(data, 0, before)
      modifies this`chunks
      ensures Writing(data, 0, trace) && before <= trace
      ensures Allocated(ChunkIndex(count - 1))
    {
      trace := before;
      ChunkTableCapacity(count - 1);
      var last := ChunkIndex(count - 1);
      var chunk := 0;
      while chunk <= last
        invariant 0 <= chunk <= last + 1
        invariant Writing(data, 0, trace) && before <= trace
        invariant forall c :: 0 <= c < chunk ==> chunks[c] != []
      {
        if chunks[chunk] == [] {
          ghost var s := Busy(data, 0);
          chunks := chunks[chunk := seq(ChunkSize(chunk), _ => zero)];
          ghost var next := Busy(data, 0);
          assert Publish(s, next, chunk, chunks[chunk]);
          PublishKeeps(s, next, chunk, chunks[chunk]);
          OneMoreStep(trace, next);
          trace := trace + [next];
        }
        chunk := chunk + 1;
      }
    }

    /** Copies `count` elements of the batch into one chunk, starting at `offset`. */
    method CopyInto(data: seq<T>, offset: nat, chunk: nat, count: nat, ghost last: nat, ghost before: seq<Store<T>>)
      returns (ghost trace: seq<Store<T>>)
      requires committed <= offset && offset + count <= committed + |data|
      requires chunk <= last && ChunkBegin(chunk) <= offset
      requires offset + count <= ChunkBegin(chunk) + ChunkSize(chunk)
      requires Writing(data, offset - committed, before) && Allocated(last)
      modifies this`chunks
      ensures Writing(data, offset + count - committed, trace) && before <= trace && Allocated(last)
    {
      trace := before;
      for i := 0 to count
        invariant Writing(data, offset + i - committed, trace) && before <= trace && Allocated(last)
      {
        trace := WriteElement(data, offset + i, chunk, last, trace);
      }
    }

    /** One element of the batch goes into its cell. */
    method WriteElement(data: seq<T>, at: nat, chunk: nat, ghost last: nat, ghost before: seq<Store<T>>)
      returns (ghost trace: seq<Store<T>>)
      requires committed <= at < committed + |data|
      requires chunk <= last && ChunkBegin(chunk) <= at < ChunkBegin(chunk) + ChunkSize(chunk)
      requires Writing(data, at - committed, before) && Allocated(last)
      modifies this`chunks
      ensures Writing(data, at + 1 - committed, trace) && before <= trace && Allocated(last)
    {
      ghost var s := Busy(data, at - committed);
      ChunksTile(at, chunk);
      assert ChunkOk(chunks, chunk);
      chunks := chunks[chunk := chunks[chunk][at - ChunkBegin(chunk) := data[at - committed]]];
      ghost var next := Busy(data, at + 1 - committed);
      assert Write(s, next);
      WriteKeeps(s, next);
      OneMoreStep(before, next);
      trace := before + [next];
    }

    method Size() returns (n: nat)
      requires Valid()
      ensures n == |elements|
    {
      n := committed;
    }

    method Get(offset: nat) returns (x: T)
      requires Valid() && offset < |elements|
      ensures x == elements[offset]
    {
      assert Laid(chunks, 0, elements, offset);
      var chunk := ChunkIndex(offset);
      ChunksTile(offset, chunk);
      assert ChunkOk(chunks, chunk);
      x := chunks[chunk][offset - ChunkBegin(chunk)];
    }
  }
}
