/** A growing id map shared by one writer and any number of readers.

    The writer performs its stores one at a time; each append of a store takes effect when that
    store's committed count is stored, as the protocol of the append-only array shows. Readers only
    load, so a run is the sequence of states that the writer's stores produce and a reader is a
    non-decreasing choice of times for its loads. */
module IdMapProtocol {
  import opened Bits
  import opened AdaptiveStores
  import opened IdDomain
  import opened IdMapSpec
  import opened IdMapTheorems

  datatype Writer = Idle | Adding(batch: Batch, stored: nat)

  /** What readers can load, the writer's progress, and the map as of the last published batch. */
  datatype State = State(
    /** The bits in committed bitmap records, and the bitmap's own count. */
    recorded: seq<bool>,
    bitCount: nat,
    inToOut: seq<int>,
    outToIn: seq<int>,
    validCount: nat,
    outCount: nat,
    writer: Writer,
    published: MapState)

  const INITIAL := State([], 0, [], [], 0, 0, Idle, FRESH_GROWING)

  // ---- the writer's atomic steps -------------------------------------------------------

  ghost predicate Begin(s: State, t: State, data: Input) {
    && s.writer.Idle?
    && var batch := Parse(GrowingMap, s.outCount, data);
    && batch.Accepted?
    && t == s.(writer := Adding(batch, 0))
  }

  /** The stores of `AddFromData`, in program order. */
  ghost function AfterStore(s: State): (t: State)
    requires s.writer.Adding? && s.writer.batch.Accepted? && s.writer.stored < 6 && s.published.outToIn.Dense?
  {
    var batch := s.writer.batch;
    var t := s.(writer := Adding(batch, s.writer.stored + 1));
    match s.writer.stored
    case 0 => t.(recorded := s.recorded + batch.bits)
    case 1 => t.(bitCount := s.bitCount + |batch.bits|)
    case 2 => t.(inToOut := s.inToOut + batch.ids)
    case 3 => t.(outToIn := s.outToIn + InverseOf(batch, s.outCount, s.validCount))
    case 4 => t.(validCount := s.validCount + |batch.ids|)
    case _ => s.(outCount := s.outCount + |batch.bits|, writer := Idle,
                 published := AppendBatch(s.published, batch))
  }

  /** One store of a batch takes place. */
  ghost predicate Stores(s: State, t: State) {
    && s.writer.Adding? && s.writer.batch.Accepted? && s.writer.stored < 6
    && s.published.outToIn.Dense? && t == AfterStore(s)
  }

  ghost predicate Step(s: State, t: State) {
    s == t || (exists data :: Begin(s, t, data)) || Stores(s, t)
  }

  // ---- invariant -------------------------------------------------------------------------

  /** Between two batches the shared fields are the published map. */
  ghost function Quiet(p: MapState): State
    requires p.outToIn.Dense?
  {
    State(p.bitmap, |p.bitmap|, p.inToOut, p.outToIn.values, p.validCount, p.outCount, Idle, p)
  }

  /** The published map with the first `stored` stores of the batch applied. */
  ghost function Partly(p: MapState, batch: Batch, stored: nat): State
    requires p.outToIn.Dense? && batch.Accepted?
  {
    State(
      p.bitmap + (if stored > 0 then batch.bits else []),
      |p.bitmap| + (if stored > 1 then |batch.bits| else 0),
      p.inToOut + (if stored > 2 then batch.ids else []),
      p.outToIn.values + (if stored > 3 then InverseOf(batch, p.outCount, p.validCount) else []),
      p.validCount + (if stored > 4 then |batch.ids| else 0),
      p.outCount, Adding(batch, stored), p)
  }

  ghost predicate Inv(s: State) {
    && GrowInv(s.published)
    && match s.writer
       case Idle => s == Quiet(s.published)
       case Adding(batch, stored) =>
         stored < 6 && GoodBatch(batch, s.published.outCount) && s == Partly(s.published, batch, stored)
  }

  /** The stores of a batch, one after the other, lead from one published map to the next. */
  lemma StoresAdvance(p: MapState, batch: Batch, stored: nat)
    requires p.outToIn.Dense? && batch.Accepted? && stored < 6 && |p.bitmap| == p.outCount
    ensures Stores(Partly(p, batch, stored),
                   if stored < 5 then Partly(p, batch, stored + 1) else Quiet(AppendBatch(p, batch)))
  {
  }

  /** What a store can do to what readers see: extend it. */
  ghost predicate Extends(s: State, t: State) {
    && s.recorded <= t.recorded && s.bitCount <= t.bitCount
    && s.inToOut <= t.inToOut && s.outToIn <= t.outToIn
    && s.validCount <= t.validCount && s.outCount <= t.outCount
  }

  lemma StoreKeeps(s: State)
    requires Inv(s) && s.writer.Adding?
    ensures Inv(AfterStore(s)) && Extends(s, AfterStore(s))
  {
    StoresAdvance(s.published, s.writer.batch, s.writer.stored);
    if s.writer.stored == 5 {
      AppendBatchKeepsInv(s.published, s.writer.batch);
    }
  }

  lemma StepKeeps(s: State, t: State)
    requires Inv(s) && Step(s, t)
    ensures Inv(t) && Extends(s, t)
  {
    if data :| Begin(s, t, data) {
      ParseEnumerates(GrowingMap, s.outCount, data);
    } else if s != t {
      StoreKeeps(s);
    }
  }

  /** In every single state, each public id below the published count leads to a backend id that is
      already counted and listed, or nowhere, as its validity bit says. */
  lemma PublishedIsComplete(s: State, o: nat)
    requires Inv(s) && o < s.outCount
    ensures o < |s.outToIn| && o < s.bitCount <= |s.recorded|
    ensures if s.recorded[o]
            then 0 <= s.outToIn[o] < s.validCount <= |s.inToOut| && s.inToOut[s.outToIn[o]] == o
            else s.outToIn[o] == INVALID
  {
    var p := s.published;
    assert Backward(p.bitmap, p.inToOut, p.outToIn.values, o);
  }

  // ---- runs ------------------------------------------------------------------------------

  ghost predicate StepAt(run: seq<State>, t: nat)
    requires t + 1 < |run|
  {
    Step(run[t], run[t + 1])
  }

  ghost predicate Steps(run: seq<State>) {
    |run| > 0 && forall t :: 0 <= t < |run| - 1 ==> StepAt(run, t)
  }

  ghost predicate Run(run: seq<State>) {
    Steps(run) && run[0] == INITIAL
  }

  /** Everything that takes one accepted batch from the published map to the next. */
  ghost function AddTrace(p: MapState, batch: Batch): (trace: seq<State>)
    requires p.outToIn.Dense? && batch.Accepted?
    ensures |trace| == 8 && trace[0] == Quiet(p) && trace[7] == Quiet(AppendBatch(p, batch))
  {
    [Quiet(p), Partly(p, batch, 0), Partly(p, batch, 1), Partly(p, batch, 2), Partly(p, batch, 3),
     Partly(p, batch, 4), Partly(p, batch, 5), Quiet(AppendBatch(p, batch))]
  }

  /** The states of a batch, field by field. */
  lemma PartlyStates(p: MapState, batch: Batch)
    requires p.outToIn.Dense? && batch.Accepted?
    ensures var bits, ids := p.bitmap + batch.bits, p.inToOut + batch.ids;
            var values, more := p.outToIn.values, p.outToIn.values + InverseOf(batch, p.outCount, p.validCount);
            var n, m, v, o := |p.bitmap|, |p.bitmap| + |batch.bits|, p.validCount, p.outCount;
            && Partly(p, batch, 0) == State(p.bitmap, n, p.inToOut, values, v, o, Adding(batch, 0), p)
            && Partly(p, batch, 1) == State(bits, n, p.inToOut, values, v, o, Adding(batch, 1), p)
            && Partly(p, batch, 2) == State(bits, m, p.inToOut, values, v, o, Adding(batch, 2), p)
            && Partly(p, batch, 3) == State(bits, m, ids, values, v, o, Adding(batch, 3), p)
            && Partly(p, batch, 4) == State(bits, m, ids, more, v, o, Adding(batch, 4), p)
            && Partly(p, batch, 5) == State(bits, m, ids, more, v + |batch.ids|, o, Adding(batch, 5), p)
  {
    assert p.bitmap + [] == p.bitmap && p.inToOut + [] == p.inToOut && p.outToIn.values + [] == p.outToIn.values;
  }

  /** The steps of `trace` lead from the published map `p` to the published map `q`. */
  ghost predicate Leads(trace: seq<State>, p: MapState, q: MapState) {
    && p.outToIn.Dense? && q.outToIn.Dense?
    && Steps(trace) && trace[0] == Quiet(p) && trace[|trace| - 1] == Quiet(q)
  }

  /** What an input takes the writer through; one that is not accepted leaves everything as it is. */
  ghost function BatchTrace(p: MapState, batch: Batch): seq<State>
    requires p.outToIn.Dense?
  {
    if batch.Accepted? then AddTrace(p, batch) else [Quiet(p)]
  }

  lemma GrowLeads(p: MapState, data: Input)
    requires GrowInv(p)
    ensures Leads(BatchTrace(p, Parse(GrowingMap, p.outCount, data)), p, Grow(p, data))
  {
    var batch := Parse(GrowingMap, p.outCount, data);
    if batch.Accepted? {
      AddTraceSteps(p, data, batch);
    }
  }

  lemma AddBegins(p: MapState, data: Input, batch: Batch)
    requires p.outToIn.Dense? && batch == Parse(GrowingMap, p.outCount, data) && batch.Accepted?
    ensures Begin(Quiet(p), Partly(p, batch, 0), data)
  {
    PartlyStates(p, batch);
  }

  lemma AddTraceSteps(p: MapState, data: Input, batch: Batch)
    requires GrowInv(p) && batch == Parse(GrowingMap, p.outCount, data) && batch.Accepted?
    ensures Leads(AddTrace(p, batch), p, AppendBatch(p, batch))
  {
    AddBegins(p, data, batch);
    forall t | 0 <= t < 7 ensures StepAt(AddTrace(p, batch), t) {
      if t > 0 {
        StoresAdvance(p, batch, t - 1);
      }
    }
  }

  /** What the writer does after a run continues the run. */
  lemma Continues(run: seq<State>, trace: seq<State>)
    requires Run(run) && Steps(trace) && trace[0] == run[|run| - 1]
    ensures Run(run + trace[1..]) && (run + trace[1..])[|run + trace[1..]| - 1] == trace[|trace| - 1]
  {
    var longer := run + trace[1..];
    forall t | 0 <= t < |longer| - 1 ensures StepAt(longer, t) {
      if t + 1 < |run| {
        assert StepAt(run, t);
      } else {
        assert StepAt(trace, t + 1 - |run|);
      }
    }
  }

  lemma InitialInv()
    ensures Inv(INITIAL)
  {
    assert Linked([], [], []);
  }

  lemma {:induction false} NextKeeps(run: seq<State>, t: nat)
    requires Run(run) && t + 1 < |run| && Inv(run[t])
    ensures Inv(run[t + 1])
  {
    assert StepAt(run, t);
    StepKeeps(run[t], run[t + 1]);
  }

  lemma {:induction false} RunKeeps(run: seq<State>, t: nat)
    requires Run(run) && t < |run|
    ensures Inv(run[t])
  {
    if t == 0 {
      InitialInv();
    } else {
      RunKeeps(run, t - 1);
      NextKeeps(run, t - 1);
    }
  }

  lemma NextExtends(run: seq<State>, t: nat)
    requires Run(run) && t + 1 < |run|
    ensures Extends(run[t], run[t + 1])
  {
    RunKeeps(run, t);
    assert StepAt(run, t);
    StepKeeps(run[t], run[t + 1]);
  }

  lemma {:induction false} LaterExtends(run: seq<State>, t: nat, u: nat)
    requires Run(run) && t <= u < |run|
    ensures Extends(run[t], run[u])
    decreases u - t
  {
    if t < u {
      LaterExtends(run, t, u - 1);
      NextExtends(run, u - 1);
      ExtendsTransitive(run[t], run[u - 1], run[u]);
    }
  }

  lemma RunExtends(run: seq<State>, t: nat, u: nat)
    requires Run(run) && t <= u < |run|
    ensures Inv(run[t]) && Inv(run[u]) && Extends(run[t], run[u])
  {
    RunKeeps(run, t);
    RunKeeps(run, u);
    LaterExtends(run, t, u);
  }

  lemma ExtendsTransitive(s: State, t: State, u: State)
    requires Extends(s, t) && Extends(t, u)
    ensures Extends(s, u)
  {
  }

  // ---- readers ---------------------------------------------------------------------------

  /** Non-decreasing load times within the run. */
  ghost predicate Times(run: seq<State>, times: seq<nat>) {
    && (forall k :: 0 <= k < |times| ==> times[k] < |run|)
    && (forall k, m :: 0 <= k <= m < |times| ==> times[k] <= times[m])
  }

  /** `MapOutToIn(o)`: two loads of the public count, one of the table size, one of the slot. */
  ghost function ReadOutToIn(run: seq<State>, t: seq<nat>, o: nat): int
    requires Run(run) && |t| == 4 && Times(run, t)
  {
    if run[t[0]].outCount == 0 then o
    else if o > INT32_MAX || (run[t[1]].outCount != 0 && o >= run[t[1]].outCount) then INVALID
    else if o < |run[t[2]].outToIn| then
      RunExtends(run, t[2], t[3]);
      run[t[3]].outToIn[o]
    else INVALID
  }

  /** `MapInToOut(i)`: loads of the id list's size, of the valid count, and of the slot. */
  ghost function ReadInToOut(run: seq<State>, t: seq<nat>, i: nat): int
    requires Run(run) && |t| == 3 && Times(run, t)
  {
    if |run[t[0]].inToOut| == 0 then i
    else if i < run[t[1]].validCount then
      RunExtends(run, t[1], t[2]);
      ValidIsListed(run[t[2]]);
      run[t[2]].inToOut[i]
    else INVALID
  }

  lemma ValidIsListed(s: State)
    requires Inv(s)
    ensures s.validCount <= |s.inToOut| && s.bitCount <= |s.recorded|
  {
  }

  /** `IsValidOutId(o)`: the public count, the bitmap count three times, and the record that holds the
      bit. */
  ghost function ReadIsValid(run: seq<State>, t: seq<nat>, o: nat): bool
    requires Run(run) && |t| == 5 && Times(run, t)
  {
    if run[t[0]].outCount != 0 && o >= run[t[0]].outCount then false
    else if run[t[1]].bitCount == 0 then true
    else if o < run[t[2]].bitCount && o < run[t[3]].bitCount then
      RunExtends(run, t[3], t[4]);
      ValidIsListed(run[t[4]]);
      run[t[4]].recorded[o]
    else false
  }

  /** Between two batches, loads at one moment give what the lookups of the published map give. */
  lemma QuietLookups(run: seq<State>, u: nat, id: nat)
    requires Run(run) && u < |run| && run[u].writer.Idle?
    ensures ReadOutToIn(run, [u, u, u, u], id) == MapOutToIn(run[u].published, id)
    ensures ReadInToOut(run, [u, u, u], id) == MapInToOut(run[u].published, id)
    ensures ReadIsValid(run, [u, u, u, u, u], id) <==> IsValidOutId(run[u].published, id)
  {
    RunKeeps(run, u);
    GrowInvBounds(run[u].published);
  }

  /** A lookup whose first load saw a non-zero count answers from the published map. */
  lemma ReadOutToInPublished(run: seq<State>, t: seq<nat>, o: nat, u: nat)
    requires Run(run) && |t| == 4 && Times(run, t) && t[3] <= u < |run|
    requires run[t[0]].outCount != 0
    ensures ReadOutToIn(run, t, o) >= 0 ==>
              && o < run[u].outCount && o < |run[u].outToIn| && ReadOutToIn(run, t, o) == run[u].outToIn[o]
    ensures o < run[t[1]].outCount ==>
              Inv(run[u]) && o < |run[u].outToIn| && ReadOutToIn(run, t, o) == run[u].outToIn[o]
  {
    RunExtends(run, t[0], t[1]);
    RunExtends(run, t[1], t[2]);
    RunExtends(run, t[2], t[3]);
    RunExtends(run, t[3], u);
    if o < run[t[1]].outCount {
      PublishedIsComplete(run[t[1]], o);
      assert run[t[1]].outCount <= INT32_MAX + 1;
    }
  }

  /** Every state from the end of the lookup on backs its answer. */
  lemma LaterStates(run: seq<State>, t: seq<nat>, o: nat, u: nat)
    requires Run(run) && |t| == 4 && Times(run, t) && run[t[0]].outCount != 0
    requires t[3] <= u < |run| && ReadOutToIn(run, t, o) >= 0
    ensures var i, s := ReadOutToIn(run, t, o), run[u];
            && Inv(s) && o < s.outCount && o < s.bitCount <= |s.recorded| && s.recorded[o]
            && o < |s.outToIn| && s.outToIn[o] == i
            && i < s.validCount <= |s.inToOut| && s.inToOut[i] == o
  {
    ReadOutToInPublished(run, t, o, u);
    RunKeeps(run, u);
    PublishedIsComplete(run[u], o);
  }

  lemma LaterIsValid(run: seq<State>, t: seq<nat>, o: nat, b: seq<nat>)
    requires Run(run) && |t| == 4 && Times(run, t) && run[t[0]].outCount != 0
    requires |b| == 5 && Times(run, b) && t[3] <= b[0]
    requires ReadOutToIn(run, t, o) >= 0
    ensures ReadIsValid(run, b, o)
  {
    LaterStates(run, t, o, b[0]);
    LaterStates(run, t, o, b[1]);
    LaterStates(run, t, o, b[2]);
    LaterStates(run, t, o, b[3]);
    LaterStates(run, t, o, b[4]);
  }

  lemma LaterInToOut(run: seq<State>, t: seq<nat>, o: nat, a: seq<nat>)
    requires Run(run) && |t| == 4 && Times(run, t) && run[t[0]].outCount != 0
    requires |a| == 3 && Times(run, a) && t[3] <= a[0]
    requires ReadOutToIn(run, t, o) >= 0
    ensures ReadInToOut(run, a, ReadOutToIn(run, t, o)) == o
  {
    LaterStates(run, t, o, a[0]);
    LaterStates(run, t, o, a[1]);
    LaterStates(run, t, o, a[2]);
  }

  /** No published mapping ever changes: two lookups of an id that was below the count when the first
      one checked it give the same answer, valid or not. */
  lemma LookupsAreStable(run: seq<State>, t: seq<nat>, u: seq<nat>, o: nat)
    requires Run(run) && |t| == 4 && Times(run, t) && |u| == 4 && Times(run, u) && t[3] <= u[0]
    requires run[t[0]].outCount != 0 && o < run[t[1]].outCount
    ensures ReadOutToIn(run, u, o) == ReadOutToIn(run, t, o)
  {
    RunExtends(run, t[0], u[0]);
    RunExtends(run, t[1], u[1]);
    ReadOutToInPublished(run, t, o, u[3]);
    ReadOutToInPublished(run, u, o, u[3]);
  }

  /** The central guarantee to readers. A reader that saw a non-zero public count and mapped `o` to
      some `i >= 0` finds, on any later reads and whatever the writer does meanwhile, that `i` is
      below the valid count, that `MapInToOut(i)` is `o`, that `o` is valid, and that `MapOutToIn(o)`
      is still `i`. */
  lemma ReadersAgree(run: seq<State>, t: seq<nat>, o: nat, u: nat, a: seq<nat>, b: seq<nat>, c: seq<nat>)
    requires Run(run) && |t| == 4 && Times(run, t) && run[t[0]].outCount != 0
    requires t[3] <= u < |run|
    requires |a| == 3 && Times(run, a) && t[3] <= a[0]
    requires |b| == 5 && Times(run, b) && t[3] <= b[0]
    requires |c| == 4 && Times(run, c) && t[3] <= c[0]
    requires ReadOutToIn(run, t, o) >= 0
    ensures ReadOutToIn(run, t, o) < run[u].validCount
    ensures ReadInToOut(run, a, ReadOutToIn(run, t, o)) == o
    ensures ReadIsValid(run, b, o)
    ensures ReadOutToIn(run, c, o) == ReadOutToIn(run, t, o)
  {
    LaterStates(run, t, o, u);
    LaterInToOut(run, t, o, a);
    LaterIsValid(run, t, o, b);
    RunExtends(run, t[0], t[1]);
    LookupsAreStable(run, t, c, o);
  }

  // ---- readers that start from a backend id ------------------------------------------------------

  /** A counted backend id is listed, and what it names is recorded as valid and leads back, also before the
      public count is stored. */
  lemma CountedIsBacked(s: State, i: nat)
    requires Inv(s) && i < s.validCount
    ensures i < |s.inToOut| && var o := s.inToOut[i];
            && 0 <= o < |s.outToIn| && s.outToIn[o] == i && o <= INT32_MAX
            && o < s.bitCount <= |s.recorded| && s.recorded[o]
  {
    var t := if s.writer.Adding? && s.writer.stored == 5 then AppendBatch(s.published, s.writer.batch) else s.published;
    if s.writer.Adding? {
      AppendBatchKeepsInv(s.published, s.writer.batch);
    }
    GrowInvBounds(t);
    assert Forward(t.bitmap, t.inToOut, t.outToIn.values, i);
    assert t.bitmap <= s.recorded && t.inToOut <= s.inToOut && t.outToIn.values <= s.outToIn;
  }

  /** The lookup maps `i` by the list: there is one, and `i` is counted. */
  ghost predicate IsCounted(run: seq<State>, a: seq<nat>, i: nat)
    requires Run(run) && |a| == 3 && Times(run, a)
  {
    |run[a[0]].inToOut| != 0 && i < run[a[1]].validCount
  }

  /** Every state from the end of such a lookup on backs its answer. */
  lemma LaterBacked(run: seq<State>, a: seq<nat>, i: nat, u: nat)
    requires Run(run) && |a| == 3 && Times(run, a) && IsCounted(run, a, i) && a[2] <= u < |run|
    ensures var o, s := ReadInToOut(run, a, i), run[u];
            && Inv(s) && 0 <= o < |s.outToIn| && s.outToIn[o] == i && o <= INT32_MAX
            && o < s.bitCount <= |s.recorded| && s.recorded[o]
  {
    RunExtends(run, a[1], a[2]);
    RunExtends(run, a[2], u);
    CountedIsBacked(run[a[2]], i);
    CountedIsBacked(run[u], i);
  }

  /** A public id found for a counted backend id leads back to it, for a later reader, exactly when it is below
      the public count that this reader loads; a reader that still loads zero takes it for a backend id. */
  lemma FoundLeadsBackIff(run: seq<State>, a: seq<nat>, i: nat, c: seq<nat>)
    requires Run(run) && |a| == 3 && Times(run, a) && IsCounted(run, a, i)
    requires |c| == 4 && Times(run, c) && a[2] <= c[0]
    ensures var o := ReadInToOut(run, a, i);
            o >= 0 && (ReadOutToIn(run, c, o) == i <==>
                       if run[c[0]].outCount == 0 then o == i else o < run[c[1]].outCount)
  {
    LaterBacked(run, a, i, c[2]);
    LaterBacked(run, a, i, c[3]);
    RunExtends(run, c[0], c[1]);
  }

  /** It is valid, for a later reader, exactly when this reader does not load a public count at or below it. */
  lemma FoundIsValidIff(run: seq<State>, a: seq<nat>, i: nat, b: seq<nat>)
    requires Run(run) && |a| == 3 && Times(run, a) && IsCounted(run, a, i)
    requires |b| == 5 && Times(run, b) && a[2] <= b[0]
    ensures var o := ReadInToOut(run, a, i);
            o >= 0 && (ReadIsValid(run, b, o) <==> run[b[0]].outCount == 0 || o < run[b[0]].outCount)
  {
    LaterBacked(run, a, i, b[1]);
    LaterBacked(run, a, i, b[2]);
    LaterBacked(run, a, i, b[3]);
    LaterBacked(run, a, i, b[4]);
  }

  /** One more public id, valid. */
  lemma ValidBatch(p: MapState) returns (trace: seq<State>)
    requires GrowInv(p) && p.outCount < MAX_DOMAIN
    ensures Steps(trace) && |trace| == 8 && trace[0] == Quiet(p)
    ensures var s := trace[6];
            s.inToOut == p.inToOut + [p.outCount] && s.validCount == p.validCount + 1 && s.outCount == p.outCount
    ensures trace[7].writer.Idle? && trace[7].outCount == p.outCount + 1 && trace[7].validCount == p.validCount + 1
  {
    var data: Input, batch := BoolArray(Some([true]), 1), Accepted([true], [p.outCount]);
    assert [true][..1] == [true];
    OneSetBit(p.outCount);
    assert batch == Parse(GrowingMap, p.outCount, data);
    AddTraceSteps(p, data, batch);
    trace := AddTrace(p, batch);
  }

  lemma OneSetBit(base: nat)
    ensures SetBits([true], base) == [base]
  {
    assert [true][..0] == [];
    assert SetBits([true][..0], base) == [];
  }

  /** Both conditions are needed. Whenever the count is not zero between two batches, one more valid id makes a
      moment, between the stores of the two counts, at which a counted backend id leads to a public id that is
      taken for invalid and for unmapped. */
  lemma EarlyLookupMisleads(before: seq<State>) returns (run: seq<State>, u: nat, i: nat)
    requires Run(before) && before[|before| - 1].writer.Idle? && 0 < before[|before| - 1].outCount < MAX_DOMAIN
    ensures before <= run && Run(run) && u < |run| && IsCounted(run, [u, u, u], i)
    ensures var last, o := before[|before| - 1], ReadInToOut(run, [u, u, u], i);
            && i == last.validCount && o == last.outCount == run[u].outCount
            && !ReadIsValid(run, [u, u, u, u, u], o) && ReadOutToIn(run, [u, u, u, u], o) == INVALID
  {
    var n := |before| - 1;
    RunKeeps(before, n);
    var p := before[n].published;
    GrowInvBounds(p);
    var trace := ValidBatch(p);
    Continues(before, trace);
    run, u, i := before + trace[1..], n + 6, p.validCount;
    assert run[u] == trace[6];
    FoundIsValidIff(run, [u, u, u], i, [u, u, u, u, u]);
  }

  /** Such a run: two batches of one valid id each, while the public count is still one. */
  lemma SecondIdMisleads() returns (run: seq<State>, u: nat)
    ensures Run(run) && u < |run| && run[u].outCount == 1
    ensures ReadInToOut(run, [u, u, u], 1) == 1
    ensures !ReadIsValid(run, [u, u, u, u, u], 1) && ReadOutToIn(run, [u, u, u, u], 1) == INVALID
  {
    InitialInv();
    var first := ValidBatch(FRESH_GROWING);
    var i;
    run, u, i := EarlyLookupMisleads(first);
  }

  /** A first batch that declares every id up to `o` invalid. */
  lemma InvalidBatch(p: MapState, o: nat) returns (trace: seq<State>)
    requires GrowInv(p) && p.outCount == 0 && o <= INT32_MAX
    ensures Steps(trace) && trace[0] == Quiet(p)
    ensures var last := trace[|trace| - 1];
            last.outCount == o + 1 && last.validCount == 0 && last.recorded == Zeros(o + 1)
  {
    GrowInvBounds(p);
    var data: Input := BoolArray(Some(Zeros(o + 1)), o + 1);
    NoSetBits(o + 1);
    assert Zeros(o + 1)[..o + 1] == Zeros(o + 1);
    var batch := Accepted(Zeros(o + 1), []);
    assert batch == Parse(GrowingMap, 0, data);
    AddTraceSteps(p, data, batch);
    trace := AddTrace(p, batch);
  }

  lemma NoSetBits(count: nat)
    ensures SetBits(Zeros(count), 0) == []
  {
    SetBitsSound(Zeros(count), 0);
  }

  /** The condition on the first load is needed. Whenever the count is still zero between two batches, a
      lookup of any id takes it for a backend id, and the writer can go on so that there is none: a batch of
      invalid ids up to it. */
  lemma UnpublishedLookupMisleads(before: seq<State>, o: nat) returns (run: seq<State>, t: seq<nat>)
    requires Run(before) && before[|before| - 1].writer.Idle? && before[|before| - 1].outCount == 0
    requires o <= INT32_MAX
    ensures before <= run && Run(run) && |t| == 4 && Times(run, t) && run[t[3]] == before[|before| - 1]
    ensures ReadOutToIn(run, t, o) == o
    ensures var last := run[|run| - 1];
            o < last.outCount && last.validCount == 0 && o < |last.recorded| && !last.recorded[o]
  {
    var n := |before| - 1;
    RunKeeps(before, n);
    var trace := InvalidBatch(before[n].published, o);
    Continues(before, trace);
    run, t := before + trace[1..], [n, n, n, n];
    assert run[n] == before[n];
  }
}
