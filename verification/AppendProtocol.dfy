/** The append-only array as a protocol: one appender publishes chunks and a committed count, any
    number of readers load the count, a chunk pointer and a cell at times of their own.

    Readers never write, so a run is the sequence of states the appender passes through, one atomic
    store per step, and a reader is a non-decreasing choice of times at which it performs its loads. */
module AppendProtocol {
  import opened Chunks

  datatype Writer<T> =
    | Idle
    | Appending(batch: seq<T>, written: nat)

  /** `chunks[c] == []` is a null chunk pointer; `log` records the elements of all committed
      batches. */
  datatype Store<T> = Store(chunks: seq<seq<T>>, log: seq<T>, committed: nat, writer: Writer<T>)

  ghost predicate ChunkOk<T>(chunks: seq<seq<T>>, c: nat)
    requires c < |chunks|
  {
    chunks[c] == [] || |chunks[c]| == ChunkSize(c)
  }

  ghost predicate WellFormed<T>(chunks: seq<seq<T>>) {
    && |chunks| == MAX_CHUNKS
    && forall c :: 0 <= c < MAX_CHUNKS ==> ChunkOk(chunks, c)
  }

  /** The chunk that holds `offset` has been published. */
  ghost predicate Reachable<T>(chunks: seq<seq<T>>, offset: nat)
    requires WellFormed(chunks)
  {
    ChunkIndex(offset) < MAX_CHUNKS && chunks[ChunkIndex(offset)] != []
  }

  /** The load that `Get(offset)` performs through a published chunk. */
  function Cell<T>(chunks: seq<seq<T>>, offset: nat): T
    requires WellFormed(chunks) && Reachable(chunks, offset)
  {
    ChunksTile(offset, ChunkIndex(offset));
    assert ChunkOk(chunks, ChunkIndex(offset));
    chunks[ChunkIndex(offset)][offset - ChunkBegin(ChunkIndex(offset))]
  }

  function SetCell<T>(chunks: seq<seq<T>>, offset: nat, value: T): (r: seq<seq<T>>)
    requires WellFormed(chunks) && Reachable(chunks, offset)
  {
    ChunksTile(offset, ChunkIndex(offset));
    var c := ChunkIndex(offset);
    assert ChunkOk(chunks, c);
    chunks[c := chunks[c][offset - ChunkBegin(c) := value]]
  }

  /** Element `k` of `items` is in the cell `k` places after `base`. */
  ghost predicate Laid<T>(chunks: seq<seq<T>>, base: nat, items: seq<T>, k: nat)
    requires WellFormed(chunks) && k < |items|
  {
    Reachable(chunks, base + k) && Cell(chunks, base + k) == items[k]
  }

  ghost predicate LaidUpTo<T>(chunks: seq<seq<T>>, base: nat, items: seq<T>, n: nat)
    requires WellFormed(chunks) && n <= |items|
  {
    forall k: nat :: k < n ==> Laid(chunks, base, items, k)
  }

  /** A cell write changes that cell and no other. */
  lemma SetCellFrame<T>(chunks: seq<seq<T>>, offset: nat, value: T)
    requires WellFormed(chunks) && Reachable(chunks, offset)
    ensures WellFormed(SetCell(chunks, offset, value))
    ensures forall o: nat :: Reachable(SetCell(chunks, offset, value), o) <==> Reachable(chunks, o)
    ensures forall o: nat :: Reachable(chunks, o) ==>
              Cell(SetCell(chunks, offset, value), o) == if o == offset then value else Cell(chunks, o)
  {
    var r := SetCell(chunks, offset, value);
    ChunksTile(offset, ChunkIndex(offset));
    forall c: nat | c < MAX_CHUNKS ensures ChunkOk(r, c) {
      assert ChunkOk(chunks, c);
    }
    forall o: nat | Reachable(chunks, o)
      ensures Reachable(r, o) && Cell(r, o) == if o == offset then value else Cell(chunks, o)
    {
      ChunksTile(o, ChunkIndex(o));
      assert ChunkOk(chunks, ChunkIndex(o));
    }
  }

  // ---- the appender's atomic steps ------------------------------------------

  /** `Append` is entered with a batch that passes its two size checks. */
  ghost predicate Begin<T>(s: Store<T>, t: Store<T>, batch: seq<T>) {
    && s.writer.Idle? && s.committed + |batch| <= CAPACITY
    && t == s.(writer := Appending(batch, 0))
  }

  /** `EnsureCapacity` publishes a missing chunk, with unspecified contents. */
  ghost predicate Publish<T>(s: Store<T>, t: Store<T>, chunk: nat, cells: seq<T>) {
    && s.writer.Appending? && s.committed + |s.writer.batch| > 0
    && WellFormed(s.chunks)
    && chunk <= ChunkIndex(s.committed + |s.writer.batch| - 1)
    && chunk < MAX_CHUNKS && s.chunks[chunk] == [] && |cells| == ChunkSize(chunk)
    && t == s.(chunks := s.chunks[chunk := cells])
  }

  /** One element of the batch is copied into its cell. */
  ghost predicate Write<T>(s: Store<T>, t: Store<T>) {
    && s.writer.Appending? && s.writer.written < |s.writer.batch|
    && WellFormed(s.chunks)
    && var offset := s.committed + s.writer.written;
    && Reachable(s.chunks, offset)
    && t == s.(chunks := SetCell(s.chunks, offset, s.writer.batch[s.writer.written]),
               writer := s.writer.(written := s.writer.written + 1))
  }

  /** The committed count is stored once the whole batch is in place. */
  ghost predicate Commit<T>(s: Store<T>, t: Store<T>) {
    && s.writer.Appending? && s.writer.written == |s.writer.batch|
    && t == s.(committed := s.committed + |s.writer.batch|, log := s.log + s.writer.batch, writer := Idle)
  }

  ghost predicate Step<T(!new)>(s: Store<T>, t: Store<T>) {
    || s == t
    || (exists batch :: Begin(s, t, batch))
    || (exists chunk, cells :: Publish(s, t, chunk, cells))
    || Write(s, t)
    || Commit(s, t)
  }

  // ---- invariant --------------------------------------------------------------

  /** Every committed element is in its cell, and so is the copied part of the current batch. */
  ghost predicate Inv<T>(s: Store<T>) {
    && WellFormed(s.chunks)
    && |s.log| == s.committed <= CAPACITY
    && LaidUpTo(s.chunks, 0, s.log, |s.log|)
    && (s.writer.Appending? ==>
          && s.committed + |s.writer.batch| <= CAPACITY
          && s.writer.written <= |s.writer.batch|
          && LaidUpTo(s.chunks, s.committed, s.writer.batch, s.writer.written))
  }

  lemma PublishKeeps<T>(s: Store<T>, t: Store<T>, chunk: nat, cells: seq<T>)
    requires Inv(s) && Publish(s, t, chunk, cells)
    ensures Inv(t)
  {
    forall c: nat | c < MAX_CHUNKS ensures ChunkOk(t.chunks, c) {
      assert ChunkOk(s.chunks, c);
    }
    forall k: nat | k < |s.log| ensures Laid(t.chunks, 0, t.log, k) {
      assert Laid(s.chunks, 0, s.log, k);
    }
    forall k: nat | k < s.writer.written ensures Laid(t.chunks, t.committed, t.writer.batch, k) {
      assert Laid(s.chunks, s.committed, s.writer.batch, k);
    }
  }

  lemma WriteKeeps<T>(s: Store<T>, t: Store<T>)
    requires Inv(s) && Write(s, t)
    ensures Inv(t)
  {
    SetCellFrame(s.chunks, s.committed + s.writer.written, s.writer.batch[s.writer.written]);
    forall k: nat | k < |s.log| ensures Laid(t.chunks, 0, t.log, k) {
      assert Laid(s.chunks, 0, s.log, k);
    }
    forall k: nat | k < t.writer.written ensures Laid(t.chunks, t.committed, t.writer.batch, k) {
      assert k < s.writer.written ==> Laid(s.chunks, s.committed, s.writer.batch, k);
    }
  }

  lemma CommitKeeps<T>(s: Store<T>, t: Store<T>)
    requires Inv(s) && Commit(s, t)
    ensures Inv(t)
  {
    forall k: nat | k < |t.log| ensures Laid(t.chunks, 0, t.log, k) {
      if k < |s.log| {
        assert Laid(s.chunks, 0, s.log, k);
      } else {
        assert Laid(s.chunks, s.committed, s.writer.batch, k - |s.log|);
      }
    }
  }

  /** Every step keeps the invariant, and the log only grows at its end. */
  lemma StepKeeps<T(!new)>(s: Store<T>, t: Store<T>)
    requires Inv(s) && Step(s, t)
    ensures Inv(t) && s.log <= t.log
  {
    if chunk: nat, cells :| Publish(s, t, chunk, cells) {
      PublishKeeps(s, t, chunk, cells);
    } else if Write(s, t) {
      WriteKeeps(s, t);
    } else if Commit(s, t) {
      CommitKeeps(s, t);
    }
  }

  // ---- runs -------------------------------------------------------------------

  ghost predicate StepAt<T(!new)>(run: seq<Store<T>>, t: nat)
    requires t + 1 < |run|
  {
    Step(run[t], run[t + 1])
  }

  ghost predicate Steps<T(!new)>(run: seq<Store<T>>) {
    |run| > 0 && forall t :: 0 <= t < |run| - 1 ==> StepAt(run, t)
  }

  lemma OneMoreStep<T(!new)>(run: seq<Store<T>>, next: Store<T>)
    requires Steps(run) && Step(run[|run| - 1], next)
    ensures Steps(run + [next])
  {
    var longer := run + [next];
    forall t | 0 <= t < |longer| - 1 ensures StepAt(longer, t) {
      assert t + 1 < |run| ==> StepAt(run, t);
    }
  }

  /** A run from an empty array. */
  ghost predicate Run<T(!new)>(run: seq<Store<T>>) {
    Steps(run) && Inv(run[0]) && run[0].log == []
  }

  /** The batches committed during the run, concatenated in commit order. */
  ghost function Committed<T(!new)>(run: seq<Store<T>>): seq<T> {
    if |run| <= 1 then []
    else
      var s, t := run[|run| - 2], run[|run| - 1];
      Committed(run[..|run| - 1]) + if Commit(s, t) then s.writer.batch else []
  }

  lemma RunPrefix<T(!new)>(run: seq<Store<T>>, n: nat)
    requires Run(run) && 0 < n <= |run|
    ensures Run(run[..n])
  {
    forall t | 0 <= t < n - 1 ensures StepAt(run[..n], t) {
      assert StepAt(run, t);
    }
  }

  lemma {:induction false} RunLog<T(!new)>(run: seq<Store<T>>)
    requires Run(run)
    ensures Inv(run[|run| - 1]) && run[|run| - 1].log == Committed(run)
  {
    if |run| > 1 {
      RunPrefix(run, |run| - 1);
      RunLog(run[..|run| - 1]);
      assert StepAt(run, |run| - 2);
      StepKeeps(run[|run| - 2], run[|run| - 1]);
    }
  }

  /** Between two moments of a run the log only grows at its end. */
  lemma {:induction false} RunGrows<T(!new)>(run: seq<Store<T>>, t: nat, u: nat)
    requires Run(run) && t <= u < |run|
    ensures Inv(run[t]) && Inv(run[u]) && run[t].log <= run[u].log
    decreases u - t
  {
    RunPrefix(run, t + 1);
    RunLog(run[..t + 1]);
    if t < u {
      RunGrows(run, t, u - 1);
      assert StepAt(run, u - 1);
      StepKeeps(run[u - 1], run[u]);
    }
  }

  /** A reader that loads the committed count at time `t`, and then any chunk pointer and cell below
      that count at any later times, finds a published chunk and the element that had been committed
      at that place when it loaded the count, whatever the appender does in between. */
  lemma ReaderSeesCommitted<T(!new)>(run: seq<Store<T>>, t: nat, p: nat, c: nat, offset: nat)
    requires Run(run) && t <= p <= c < |run|
    requires offset < run[t].committed
    ensures WellFormed(run[p].chunks) && Reachable(run[p].chunks, offset)
    ensures WellFormed(run[c].chunks) && Reachable(run[c].chunks, offset)
    ensures |Committed(run[..t + 1])| == run[t].committed
    ensures Cell(run[c].chunks, offset) == Committed(run[..t + 1])[offset]
  {
    RunPrefix(run, t + 1);
    RunLog(run[..t + 1]);
    RunGrows(run, t, p);
    RunGrows(run, t, c);
    assert Laid(run[p].chunks, 0, run[p].log, offset);
    assert Laid(run[c].chunks, 0, run[c].log, offset);
  }

  function Min(a: nat, b: nat): nat {
    if a <= b then a else b
  }

  /** A copy or `Prefix(count)` taken at time `t` fixes its visible count; from then on its size never
      changes and reading its elements, each at a time of its own, gives what was committed at `t`. */
  lemma SnapshotKeeps<T(!new)>(run: seq<Store<T>>, t: nat, count: nat, times: seq<nat>)
    requires Run(run) && t < |run|
    requires |times| == Min(count, run[t].committed)
    requires forall o :: 0 <= o < |times| ==> t <= times[o] < |run|
    ensures forall u :: t <= u < |run| ==> Min(|times|, run[u].committed) == |times|
    ensures |times| <= |Committed(run[..t + 1])|
    ensures forall o: nat :: o < |times| ==>
              && WellFormed(run[times[o]].chunks) && Reachable(run[times[o]].chunks, o)
              && Cell(run[times[o]].chunks, o) == Committed(run[..t + 1])[o]
  {
    RunPrefix(run, t + 1);
    RunLog(run[..t + 1]);
    forall u | t <= u < |run| ensures |times| <= run[u].committed {
      RunGrows(run, t, u);
    }
    forall o: nat | o < |times|
      ensures WellFormed(run[times[o]].chunks) && Reachable(run[times[o]].chunks, o)
      ensures Cell(run[times[o]].chunks, o) == Committed(run[..t + 1])[o]
    {
      ReaderSeesCommitted(run, t, t, times[o], o);
    }
  }
}
