/** Sealed id maps that are published and finalized any number of times. */
module SealedRuns {
  import opened Bits
  import opened AdaptiveStores
  import opened IdDomain
  import opened IdMapSpec
  import opened IdMapTheorems

  datatype Op = Publish(data: Input) | Finalize

  ghost predicate Step(s: MapState, op: Op, t: MapState) {
    match op
    case Publish(data) => Added(s, data, t)
    case Finalize => Finalized(s, t)
  }

  ghost predicate StepAt(ops: seq<Op>, states: seq<MapState>, k: nat)
    requires k < |ops| && k + 1 < |states|
  {
    Step(states[k], ops[k], states[k + 1])
  }

  /** The operations may take a fresh sealed map through these states. */
  ghost predicate Run(ops: seq<Op>, states: seq<MapState>) {
    && |states| == |ops| + 1 && states[0] == FRESH_SEALED
    && forall k :: 0 <= k < |ops| ==> StepAt(ops, states, k)
  }

  // ---- what the operations amount to ---------------------------------------------------------

  /** The bits given last, the ids in force, and the last list of ids that was not empty. */
  datatype Given = Given(bits: seq<bool>, ids: seq<int>, keys: seq<int>)

  function WithIds(g: Given, ids: seq<int>): Given {
    g.(ids := ids, keys := if ids == [] then g.keys else ids)
  }

  /** An accepted publish gives bits, and in the `IDS` format ids. Finalization gives the ids of the bits when
      none are in force. */
  function Next(g: Given, op: Op): Given {
    match op
    case Publish(data) =>
      var batch := Parse(SealedMap, 0, data);
      if !batch.Accepted? then g
      else if data.Ids? then WithIds(g.(bits := batch.bits), batch.ids)
      else g.(bits := batch.bits)
    case Finalize => if g.ids != [] then g else WithIds(g, SetBits(g.bits, 0))
  }

  function GivenBy(ops: seq<Op>): Given {
    if |ops| == 0 then Given([], [], []) else Next(GivenBy(ops[..|ops| - 1]), ops[|ops| - 1])
  }

  /** A list of distinct ids from zero on. */
  ghost predicate IsIdList(ids: seq<int>) {
    Distinct(ids, |ids|) && forall i :: 0 <= i < |ids| ==> ids[i] >= 0
  }

  /** The map is what the operations gave: the inverse table is that of the last list that was not empty. */
  ghost predicate Holds(s: MapState, g: Given) {
    && s.kind.SealedMap? && s.bitmap == g.bits && s.inToOut == g.ids
    && s.outCount == |g.bits| <= MAX_DOMAIN && s.validCount == Pop(g.bits)
    && Inverts(s.outToIn, g.keys) && IsIdList(g.keys)
    && (g.ids != [] ==> g.keys == g.ids)
  }

  lemma EnumerationIsIdList(ids: seq<int>, bits: seq<bool>)
    requires Enumerates(ids, bits, 0)
    ensures IsIdList(ids)
  {
    forall i | 0 <= i < |ids| ensures ids[i] >= 0 {
      assert Hits(ids, bits, 0, i);
    }
  }

  lemma RemappedHolds(s: MapState, g: Given, ids: seq<int>, t: MapState)
    requires Holds(s, g) && Remapped(s, ids, t) && Enumerates(ids, g.bits, 0)
    ensures Holds(t, WithIds(g, ids))
  {
    EnumerationLength(ids, g.bits, 0);
    EnumerationIsIdList(ids, g.bits);
  }

  lemma PublishHolds(s: MapState, g: Given, data: Input, t: MapState)
    requires Holds(s, g) && Added(s, data, t)
    ensures Holds(t, Next(g, Publish(data)))
  {
    var batch := Parse(SealedMap, s.outCount, data);
    assert batch == Parse(SealedMap, 0, data);
    if batch.Accepted? {
      ParseEnumerates(SealedMap, 0, data);
      if data.Ids? {
        RemappedHolds(SealBits(s, batch.bits), g.(bits := batch.bits), batch.ids, t);
      }
    }
  }

  lemma FinalizeHolds(s: MapState, g: Given, t: MapState)
    requires Holds(s, g) && Finalized(s, t)
    ensures Holds(t, Next(g, Finalize))
  {
    SetBitsEnumerate(g.bits, 0);
    if g.bits != [] && g.ids == [] {
      RemappedHolds(s, g, SetBits(g.bits, 0), t);
    }
  }

  /** At every moment of a run the map is what the operations so far gave. */
  lemma {:induction false} RunHolds(ops: seq<Op>, states: seq<MapState>, k: nat)
    requires Run(ops, states) && k <= |ops|
    ensures Holds(states[k], GivenBy(ops[..k]))
  {
    if k > 0 {
      RunHolds(ops, states, k - 1);
      assert StepAt(ops, states, k - 1);
      var s, g, t := states[k - 1], GivenBy(ops[..k - 1]), states[k];
      assert ops[..k][..k - 1] == ops[..k - 1];
      match ops[k - 1]
      case Publish(data) => PublishHolds(s, g, data, t);
      case Finalize => FinalizeHolds(s, g, t);
    }
  }

  // ---- when the two lookups are mutually inverse ----------------------------------------------

  /** Id number `i` is a valid id if it counts, and beyond the public ids otherwise. */
  ghost predicate FitsAt(bits: seq<bool>, keys: seq<int>, i: nat)
    requires i < |keys|
  {
    if i < Pop(bits) then 0 <= keys[i] < |bits| && bits[keys[i]] else keys[i] >= |bits|
  }

  /** There are ids for all valid public ids; of the last list that was not empty, the first ones, as many as
      there are valid public ids, are such, and the others lie beyond the public ids. */
  ghost predicate Fits(g: Given) {
    Pop(g.bits) <= |g.ids| && forall i :: 0 <= i < |g.keys| ==> FitsAt(g.bits, g.keys, i)
  }

  lemma FitsEnumerates(g: Given)
    requires Fits(g) && IsIdList(g.keys) && (g.ids != [] ==> g.keys == g.ids)
    ensures Enumerates(g.ids[..Pop(g.bits)], g.bits, 0)
  {
    var n := Pop(g.bits);
    var first := g.ids[..n];
    forall i: nat | i < n ensures Hits(first, g.bits, 0, i) {
      assert FitsAt(g.bits, g.keys, i);
    }
    forall v: nat, w: nat | v < w < n ensures Differ(first, v, w) {
      assert Differ(g.keys, v, w);
    }
    HitsEnumerate(first, g.bits);
  }

  lemma InvalidIsNoKey(g: Given, o: nat)
    requires Fits(g) && o < |g.bits| && !g.bits[o]
    ensures o !in g.keys
  {
    forall i: nat | i < |g.keys| ensures g.keys[i] != o {
      assert FitsAt(g.bits, g.keys, i);
    }
  }

  lemma FitsComesBack(s: MapState, g: Given, o: nat)
    requires Holds(s, g) && Fits(g) && o < s.outCount
    ensures ComesBack(s, o)
  {
    var n := Pop(g.bits);
    FitsEnumerates(g);
    if g.bits[o] {
      assert Covered(g.ids[..n], g.bits, 0, o);
      var i :| 0 <= i < n && g.ids[..n][i] == o;
      assert g.keys[i] == o;
    } else {
      InvalidIsNoKey(g, o);
    }
  }

  lemma FitsIsTwoWay(s: MapState, g: Given)
    requires Holds(s, g) && Fits(g)
    ensures TwoWay(s)
  {
    forall i: nat | i < s.validCount ensures LeadsBack(s, i) {
      assert FitsAt(g.bits, g.keys, i);
      assert g.keys[i] == g.ids[i];
    }
    forall o: nat | o < s.outCount ensures ComesBack(s, o) {
      FitsComesBack(s, g, o);
    }
  }

  lemma UncountedIsBeyond(s: MapState, g: Given, i: nat)
    requires Holds(s, g) && TwoWay(s) && Pop(g.bits) <= i < |g.keys|
    ensures g.keys[i] >= |g.bits|
  {
    forall o: nat | o < |g.bits| ensures Get(s.outToIn, o) != i {
      assert ComesBack(s, o);
    }
    assert Get(s.outToIn, g.keys[i]) == i;
  }

  lemma TwoWayFits(s: MapState, g: Given)
    requires Holds(s, g) && TwoWay(s)
    ensures Fits(g)
  {
    var n := Pop(g.bits);
    assert n > 0 ==> LeadsBack(s, n - 1);
    forall i: nat | i < |g.keys| ensures FitsAt(g.bits, g.keys, i) {
      if i < n {
        assert LeadsBack(s, i);
      } else {
        UncountedIsBeyond(s, g, i);
      }
    }
  }

  /** After any publishes and finalizations of a sealed map, the two lookups are mutually inverse and every
      counted backend id is stored exactly when the ids given fit the bits given last. */
  lemma SealedIsTwoWayIff(ops: seq<Op>, states: seq<MapState>)
    requires Run(ops, states)
    ensures TwoWay(states[|ops|]) <==> Fits(GivenBy(ops))
  {
    RunHolds(ops, states, |ops|);
    assert ops[..|ops|] == ops;
    if Fits(GivenBy(ops)) {
      FitsIsTwoWay(states[|ops|], GivenBy(ops));
    } else if TwoWay(states[|ops|]) {
      TwoWayFits(states[|ops|], GivenBy(ops));
    }
  }

  /** A lookup can read beyond the stored ids exactly when ids are in force and fewer than the valid public
      ids given last. */
  lemma SealedReadsPastIff(ops: seq<Op>, states: seq<MapState>)
    requires Run(ops, states)
    ensures (exists i :: ReadsPastIds(states[|ops|], i)) <==> 0 < |GivenBy(ops).ids| < Pop(GivenBy(ops).bits)
  {
    RunHolds(ops, states, |ops|);
    assert ops[..|ops|] == ops;
    if 0 < |GivenBy(ops).ids| < Pop(GivenBy(ops).bits) {
      assert ReadsPastIds(states[|ops|], |GivenBy(ops).ids|);
    }
  }

  // ---- a discipline that is enough ------------------------------------------------------------

  /** What is published keeps to the ids in force: validity that reaches a map with ids is theirs, and a list
      without ids does not follow one with ids. */
  ghost predicate KeepsTo(g: Given, op: Op) {
    op.Publish? ==>
      var batch := Parse(SealedMap, 0, op.data);
      batch.Accepted? ==>
        if op.data.Ids? then batch.ids == [] ==> g.keys == [] else g.ids != [] ==> batch.bits == g.bits
  }

  ghost predicate AllKeepTo(ops: seq<Op>) {
    |ops| > 0 ==>
      AllKeepTo(ops[..|ops| - 1]) && KeepsTo(GivenBy(ops[..|ops| - 1]), ops[|ops| - 1])
  }

  /** The ids in force list the bits given last, and no other list has been given before. */
  ghost predicate InStep(g: Given) {
    && (g.ids == [] ==> g.keys == [])
    && (g.ids != [] ==> g.keys == g.ids && Enumerates(g.ids, g.bits, 0))
  }

  lemma {:induction false} KeepsInStep(ops: seq<Op>)
    requires AllKeepTo(ops)
    ensures InStep(GivenBy(ops))
  {
    if |ops| > 0 {
      var g, op := GivenBy(ops[..|ops| - 1]), ops[|ops| - 1];
      KeepsInStep(ops[..|ops| - 1]);
      if op.Publish? {
        if Parse(SealedMap, 0, op.data).Accepted? {
          ParseEnumerates(SealedMap, 0, op.data);
        }
      } else {
        SetBitsEnumerate(g.bits, 0);
      }
    }
  }

  lemma InStepFits(g: Given)
    requires InStep(g) && |g.ids| == Pop(g.bits)
    ensures Fits(g)
  {
    forall i: nat | i < |g.keys| ensures FitsAt(g.bits, g.keys, i) {
      assert Hits(g.ids, g.bits, 0, i);
    }
  }

  /** A map that is finalized last after such publishes, one publish in any format included, has mutually
      inverse lookups. */
  lemma KeptIsTwoWay(ops: seq<Op>, states: seq<MapState>)
    requires Run(ops, states) && AllKeepTo(ops) && |ops| > 0 && ops[|ops| - 1].Finalize?
    ensures TwoWay(states[|ops|])
  {
    var g := GivenBy(ops);
    KeepsInStep(ops);
    SetBitsComplete(g.bits, 0);
    if g.ids != [] {
      EnumerationLength(g.ids, g.bits, 0);
    }
    InStepFits(g);
    SealedIsTwoWayIff(ops, states);
  }

  lemma GivenByTwo(a: Op, b: Op)
    ensures GivenBy([a]) == Next(Given([], [], []), a) && GivenBy([a, b]) == Next(GivenBy([a]), b)
  {
    assert [a][..0] == [] && [a, b][..1] == [a];
    assert GivenBy([a][..0]) == Given([], [], []);
  }

  lemma TwoOfTwo()
    ensures Parse(SealedMap, 0, Ids(Some([0, 1]), 2, 2)) == Accepted([true, true], [0, 1])
  {
    assert [0, 1][..2] == [0, 1];
    assert Zeros(2) == [false, false];
    assert Mark([0, 1], 0, 2) == Marked([false, false]);
    assert Mark([0, 1], 1, 2) == Marked([true, false]);
    assert Mark([0, 1], 2, 2) == Marked([true, true]);
    assert Shifted([0, 1], 0) == [0, 1];
  }

  /** It is not necessary: ids beyond the public ids of a later publish do no harm. */
  lemma IdsBeyondDoNoHarm()
    ensures var ops := [Publish(Ids(Some([0, 1]), 2, 2)), Publish(BoolArray(Some([true]), 1))];
            !AllKeepTo(ops) && Fits(GivenBy(ops))
  {
    var list: Input, bit: Input := Ids(Some([0, 1]), 2, 2), BoolArray(Some([true]), 1);
    var first, second := Publish(list), Publish(bit);
    TwoOfTwo();
    assert [true][..1] == [true];
    assert Parse(SealedMap, 0, bit).bits == [true];
    GivenByTwo(first, second);
    var before, g := Given([true, true], [0, 1], [0, 1]), Given([true], [0, 1], [0, 1]);
    assert GivenBy([first]) == before && GivenBy([first, second]) == g;
    assert !KeepsTo(before, second);
    assert [first, second][..1] == [first];
    assert Pop([true]) == 1;
  }

  // ---- two runs that do not fit ---------------------------------------------------------------

  const ONE_OF_TWO: Input := Ids(Some([0]), 1, 2)

  lemma OneOfTwo()
    ensures Parse(SealedMap, 0, ONE_OF_TWO) == Accepted([true, false], [0])
    ensures Inverts(Dense([0, INVALID]), [0])
  {
    assert [0][..1] == [0];
    assert Zeros(2) == [false, false];
    assert Mark([0], 0, 2) == Marked([false, false]);
    assert Mark([0], 1, 2) == Marked([true, false]);
    assert Shifted([0], 0) == [0];
  }

  /** Ids for one of two public ids, then validity for both: finalization leaves the ids, so the second backend
      id is counted and not stored, and the second public id is valid and leads nowhere. */
  lemma MoreValidityMisleads() returns (ops: seq<Op>, states: seq<MapState>)
    ensures Run(ops, states)
    ensures ops == [Publish(ONE_OF_TWO), Publish(BoolArray(Some([true, true]), 2)), Finalize]
    ensures states[3].validCount == 2 && states[3].inToOut == [0] && ReadsPastIds(states[3], 1)
    ensures IsValidOutId(states[3], 1) && MapOutToIn(states[3], 1) == INVALID
  {
    OneOfTwo();
    var both: Input := BoolArray(Some([true, true]), 2);
    assert [true, true][..2] == [true, true];
    assert Parse(SealedMap, 2, both).bits == [true, true];
    var first := MapState(SealedMap, [true, false], [0], Dense([0, INVALID]), 2, 1);
    var second := first.(bitmap := [true, true], validCount := 2);
    ops, states := [Publish(ONE_OF_TWO), Publish(both), Finalize], [FRESH_SEALED, first, second, second];
    assert Pop([true, true]) == 2;
    assert StepAt(ops, states, 0) && StepAt(ops, states, 1) && StepAt(ops, states, 2);
  }

  /** Ids for one of two public ids, then none for two: the inverse table stays, so a public id that is not valid
      leads to a backend id that is not counted. */
  lemma NoIdsMislead() returns (ops: seq<Op>, states: seq<MapState>)
    ensures Run(ops, states)
    ensures ops == [Publish(ONE_OF_TWO), Publish(Ids(None, 0, 2))]
    ensures states[2].validCount == 0 && !IsValidOutId(states[2], 0) && MapOutToIn(states[2], 0) == 0
  {
    OneOfTwo();
    var none: Input := Ids(None, 0, 2);
    assert Zeros(2) == [false, false];
    assert Parse(SealedMap, 2, none) == Accepted([false, false], []);
    var first := MapState(SealedMap, [true, false], [0], Dense([0, INVALID]), 2, 1);
    var second := first.(bitmap := [false, false], inToOut := [], validCount := 0);
    ops, states := [Publish(ONE_OF_TWO), Publish(none)], [FRESH_SEALED, first, second];
    assert StepAt(ops, states, 0) && StepAt(ops, states, 1);
  }
}
