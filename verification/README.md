# Verified core of knowhere

A Dafny model of the parts of knowhere (the vector search engine) whose correctness is hardest to see from the
code, with machine-checked proofs of what those parts promise:

- the append-only chunked array, its copies and prefixes, and the one-writer, many-readers protocol behind it
  (`Chunks`, `AppendProtocol`, `AppendArray`, `ArrayStores`);
- the adaptive inverse table in its dense and sparse forms (`AdaptiveStores`);
- the bitmap kept as a log of records against the bitmap kept as bytes (`Bitmaps`);
- the id map between public ids and dense backend ids: input formats, growing batches, sealed publish and
  finalization, runs of both, lookups, and lookups interleaved with a writer (`IdDomain`, `IdMapSpec`,
  `IdMapTheorems`, `SealedRuns`, `IdMapInput`, `IdMaps`, `IdMapProtocol`);
- the bitset view that filters backend ids: word-at-a-time scans and population counts, also through a snapshot of an
  id map's validity (`WordScan`, `BitsetViews`, `FilterCount`, `FilterTheorems`, `FilterSnapshots`);
- embedding-list offsets and the vector-to-list map (`EmbLists`), and the ordered MaxSim score (`OrderedMaxSims`);
- the top-k result heap (`ResultHeaps`), range search over an iterator (`RangeSearches`) and the flattened range
  result (`RangeResults`);
- three vector kernels against their scalar references: searches in sorted hashes (`BinarySearches`), the RaBitQ dot
  product (`Rabitq`) and small-dimension L2 distances (`L2Kernels`).

`Bits` holds machine words as little-endian bit sequences. `dafny verify dfyconfig.toml` checks everything.

How the model reads the code:

- Classes with mutable fields are Dafny classes; `std::vector`, `std::unordered_map` and the chunk table are fields
  of type `seq` or `map` that the methods reassign; in-place loops over buffers are loops over arrays. A
  `std::shared_ptr` is a nullable field that copies share.
- Each store or load of an atomic is one step. A run is the sequence of states that the only writer passes through;
  a reader picks a non-decreasing sequence of moments for its loads, so every interleaving is covered.
- Exceptions are error values, and a refused call says what it leaves behind. A null pointer is `None`.
- Integers are unbounded; the limits the code depends on (`int32` ids, `size_t` capacity, 54 chunks, `int` results
  of the searches) are written out. `float` is `real`.
- Preconditions are what the code asserts or dereferences: buffers as long as announced, offsets in range, `k >= 1`
  for a result heap.

Where a law one would expect does not hold of the code, the model keeps the code and states exactly when it does:

- A refused `Set` leaves the two forms of the adaptive store with the same lookups if and only if the first key is
  out of range (`RefusedSetDiffers`); for keys 0, 0 they differ (`DuplicateKeyDiffers`).
- A byte read through a bitmap snapshot stays the same under every later append if and only if all its eight bits are
  logged when the snapshot is taken (`ByteStableIff`). It is the byte of the snapshot's own bits if and only if none
  of its logged bits beyond the snapshot is set (`ByteIsOwnIff`).
- List ids stored batch by batch equal those built once with the last map if and only if every non-empty list keeps
  its id (`AppendedEqualsBuiltOnceIff`). For a map that only grows, that is so if and only if the lists stored before
  the map had ids are sent to themselves by the ids it got later (`GrownEqualIff`, `OwnIdIff`); it is always so when
  the map had ids at each batch (`GrownWithIdsEqual`), and `GrownIdsMayDiffer` is an input where it is not.
- What a reader finds for a public id is consistent from the moment it has seen a non-zero public count
  (`ReadersAgree`). Before that, every lookup of an id can be followed by a batch after which it was wrong
  (`UnpublishedLookupMisleads`).
- What a reader finds for a counted backend id leads back to it, and is valid, for a later reader that loads a non-zero
  public count if and only if it is below that count (`FoundLeadsBackIff`, `FoundIsValidIff`, which also say what a
  reader that loads zero finds). The valid count is stored first: whenever the public count is not zero
  between batches, one more valid id makes a moment at which both fail (`EarlyLookupMisleads`,
  `SecondIdMisleads`).
- A sealed map that is published and finalized any number of times has mutually inverse lookups and stores every id it
  counts if and only if the ids given fit the bits given last (`SealedIsTwoWayIff`): there are ids for all valid
  public ids, the first of the last non-empty list are those ids, and its others lie beyond the public ids. Finalization
  does not repair a map that has ids: `MoreValidityMisleads` and `NoIdsMislead` are runs where it fails.
  `KeptIsTwoWay` is a discipline that is enough, one publish in any format included, and not necessary
  (`IdsBeyondDoNoHarm`).
- Each of the two counters that `count_filtered_bits` leaves over an id map is right if and only if no valid public id
  lies beyond the bitset (`CountersAgreeIff`, `CountThroughMap`); `UncoveredVectorIsMissed` is a view where both are
  wrong. `CalcBitsetCount` adds what lies beyond. It reads the storage of a validity snapshot as far as the bitset goes,
  so its vector count is right if and only if no id appended since the snapshot and covered by the bitset is valid, and
  its filter count if and only if none is valid and filtered (`CalcThroughSnapshot`, `LaterIdIsCounted`).
- A view with a correct filter count is `empty` exactly when it filters nothing, unless the count is 0 and an offset
  pushes ids past the end of the id map (`EmptyIffUnfiltered`, `OffsetMappedViewMisleads`).
- The early-stop bound of unordered range search is the k-th closest result if and only if a candidate in range after
  the first k of them is no further than a furthest of those k (`BoundIsKthIff`, `BoundMayLag`); the comment in the
  code calls it the k-th furthest as soon as k results are there.
- The dispatched RaBitQ kernel agrees with the scalar one if and only if there are at most eight planes or the code
  shares no set bit with any plane (`KernelsAgree`, `NineMayDiffer`).
- The vector nearest-row kernel, which starts from the largest float instead of infinity, returns the first minimum if
  and only if some row is nearer than that or the first row is a nearest one (`NearestIsFirstMinIff`). At the input of
  `NearestMayMiss` it misses the nearest row. The proof is in exact arithmetic; by hand, `float` rounds the two
  distances to infinity and the largest float, where the kernel misses the row as well.
- Both guards on the chunk inside the searches never fail, so their scalar steps inside the chunk loops are dead
  code (`LowerBoundChunked`, `NarrowByChunks`).

Functions that code and contracts share are pinned down by laws that do not mention them: an id list is looked up in
the order the caller gave it (`GrownByIds`, `SealedByIds`), counters are numbers of ids (`CountFilteredBits`,
`UnfilteredIff`), a bit of a packed byte is its place in the number (`BitAtPlace`, `LoadWordValue`), the give-up rule is
plain arithmetic over the candidates (`OverLimitIff`, `RunIsFarSince`), matrices and planes are read at explicit
offsets (`ScoreByRows`, `EncodedIsValue`, `RowDistExpands`).

The stores of a growing map are tied to the protocol that readers are proved against: `AddGrowing` returns what
readers can load after each of its stores, and that sequence is one of protocol steps from the old map to the new.

## Model

| member | source | states |
|---|---|---|
| `Chunks.ChunksTile` | include/knowhere/array_store.h:121-140 | an offset lies in a chunk's range exactly when that chunk is its `ChunkIndex`; chunks follow each other without gap or overlap |
| `Chunks.ChunkIndexMonotone` | include/knowhere/array_store.h:121-130 | a larger offset is never in an earlier chunk |
| `Chunks.ChunkTableCapacity` | include/knowhere/array_store.h:117-130 | the 54-entry chunk table is exhausted exactly by the last 1024 offsets of `size_t` |
| `AppendProtocol.SetCellFrame` | include/knowhere/array_store.h:87-99 | writing a cell changes that offset and no other, and unpublishes no chunk |
| `AppendProtocol.PublishKeeps` | include/knowhere/array_store.h:142-155 | publishing a new chunk with any contents keeps every committed and copied element in place |
| `AppendProtocol.WriteKeeps` | include/knowhere/array_store.h:87-99 | copying one element keeps the invariant |
| `AppendProtocol.CommitKeeps` | include/knowhere/array_store.h:101-102 | storing the committed count after a whole batch keeps the invariant |
| `AppendProtocol.StepKeeps` | include/knowhere/array_store.h:78-155 | every step of the appender keeps the invariant and only extends the log |
| `AppendProtocol.RunLog` | include/knowhere/array_store.h:78-155 | after any run the log is the concatenation of the committed batches in order |
| `AppendProtocol.RunGrows` | include/knowhere/array_store.h:78-155 | between any two moments of a run the committed elements only grow at the end |
| `AppendProtocol.ReaderSeesCommitted` | include/knowhere/array_store.h:104-114 | a reader that loaded count n and then a chunk pointer and a cell at any later moments finds a published chunk and the element committed there when it loaded n |
| `AppendProtocol.SnapshotKeeps` | include/knowhere/array_store.h:247-251 | a copy or prefix keeps its size and every element whatever is appended later, each element read at its own moment |
| `AppendArray.AppendArrayData.Append` | include/knowhere/array_store.h:78-102 | appends exactly the data or refuses and changes nothing, tells size overflow from an exhausted chunk table, and passes through protocol steps only |
| `AppendArray.AppendArrayData.EnsureCapacity` | include/knowhere/array_store.h:142-155 | publishes every missing chunk up to the needed one, each as a protocol step |
| `AppendArray.AppendArrayData.CopyInto` | include/knowhere/array_store.h:87-99 | puts the part of the batch that falls into one chunk in place, element by element |
| `AppendArray.AppendArrayData.Size` | include/knowhere/array_store.h:104-107 | the number of committed elements |
| `AppendArray.AppendArrayData.Get` | include/knowhere/array_store.h:109-114 | the element committed at the offset |
| `ArrayStores.ArrayStore.SetType` | include/knowhere/array_store.h:190-197 | chooses the storage, creating empty append-only storage only when there is none, and follows it |
| `ArrayStores.ArrayStore.Set` | include/knowhere/array_store.h:212-226 | the contents become the data, in sealed storage of its own |
| `ArrayStores.ArrayStore.Append` | include/knowhere/array_store.h:228-240 | extends an open store by the data; refuses sealed stores, stores without storage and snapshots, unless there is nothing to append |
| `ArrayStores.ArrayStore.Size` | include/knowhere/array_store.h:247-251 | the number of elements shown, never more than the visible count |
| `ArrayStores.ArrayStore.IsEmpty` | include/knowhere/array_store.h:242-245 | holds exactly when nothing is shown |
| `ArrayStores.ArrayStore.Get` | include/knowhere/array_store.h:268-274 | the stored element at the offset in either storage, also beyond what a snapshot shows |
| `ArrayStores.ArrayStore.Put` | include/knowhere/array_store.h:276-282 | replaces one element of sealed storage and nothing else |
| `ArrayStores.ArrayStore.Clear` | include/knowhere/array_store.h:284-289 | drops all storage |
| `ArrayStores.ArrayStore.Copy` | include/knowhere/array_store.h:301-307 | shows the same elements, shares the append-only array and freezes the visible count |
| `ArrayStores.ArrayStore.Prefix` | include/knowhere/array_store.h:291-296 | shows the first `min(count, size)` elements and freezes that count |
| `ArrayStores.ArrayStore.SnapshotUnchanged` | include/knowhere/array_store.h:247-251 | a snapshot shows the same elements after any appends to the array it shares |
| `AdaptiveStores.CheckEntry` | include/knowhere/adaptive_store.h:130-146 | an entry passes exactly when its key is in range and its value fits an `int32` |
| `AdaptiveStores.FillDenseInverts` | include/knowhere/adaptive_store.h:148-162 | the dense form accepts exactly distinct keys in range with values that fit; the table then holds value v at key v and -1 elsewhere |
| `AdaptiveStores.FillSparseInverts` | include/knowhere/adaptive_store.h:63-76 | the sparse form accepts exactly the same keys; the map then holds value v at key v and nothing else |
| `AdaptiveStores.FillReports` | include/knowhere/adaptive_store.h:130-162 | filling stops at the first bad key and reports why: negative, out of range, value too large or repeated |
| `AdaptiveStores.FaultsAgree` | include/knowhere/adaptive_store.h:63-79 | both forms refuse at the same key for the same reason |
| `AdaptiveStores.RepresentationIndependent` | include/knowhere/adaptive_store.h:52-98 | for the same keys both forms accept or refuse alike, and when they accept `Get(keys[v]) == v` and every other key gives -1 in both |
| `AdaptiveStores.InverseIsUnique` | include/knowhere/adaptive_store.h:87-98 | any two tables that invert the same keys answer every lookup alike |
| `AdaptiveStores.RefusedSetDiffers` | include/knowhere/adaptive_store.h:52-85 | after a refused `Set` the two forms answer every lookup alike if and only if the first key is out of range |
| `AdaptiveStores.DuplicateKeyDiffers` | include/knowhere/adaptive_store.h:52-85 | for the keys 0, 0 both forms refuse and then answer differently |
| `AdaptiveStores.PartialIsPrefix` | include/knowhere/adaptive_store.h:63-76 | what a refused sparse `Set` leaves behind is the map of the keys before the first refused one |
| `AdaptiveStores.AdaptiveStore.FillValues` | include/knowhere/adaptive_store.h:148-162 | fills the local table for a key range or reports the first fault |
| `AdaptiveStores.AdaptiveStore.Set` | include/knowhere/adaptive_store.h:52-85 | uses the sparse form exactly for sealed, unmapped storage filled to at most a tenth; contents are those of the form used; refuses exactly bad keys, with the fault of the first |
| `AdaptiveStores.AdaptiveStore.FillMap` | include/knowhere/adaptive_store.h:63-76 | the map after all keys, or after those before the refused one |
| `AdaptiveStores.AdaptiveStore.Lookup` | include/knowhere/adaptive_store.h:87-98 | the value of the key in the form in use, -1 if there is none |
| `AdaptiveStores.AdaptiveStore.Append` | include/knowhere/adaptive_store.h:100-117 | extends a dense append-only table that ends at the first key by the inverse of the keys, or changes nothing; with room and a matching start only a bad key is refused |
| `AdaptiveStores.AdaptiveStore.Clear` | include/knowhere/adaptive_store.h:119-124 | the table becomes empty and dense |
| `AdaptiveStores.AdaptiveStore.SetType` | include/knowhere/adaptive_store.h:41-45 | chooses the dense storage and leaves the sparse map alone |
| `Bitmaps.TiledAppend` | include/knowhere/array_store.h:356-363 | a record appended at the end of the log extends the logged bits by its own, padding excluded |
| `Bitmaps.RecordBits` | include/knowhere/array_store.h:333-348 | each record covers exactly its window of the logged bits |
| `Bitmaps.LastRecordDecides` | include/knowhere/array_store.h:393-411 | the last record that starts at or before a bit decides it, empty records and bits past the end included |
| `Bitmaps.AppendBitmapData.Append` | include/knowhere/array_store.h:356-363 | extends the bits by the first `count` bits of the data, whatever pads them; in between readers see the new record and the old count |
| `Bitmaps.AppendBitmapData.CountStarts` | include/knowhere/array_store.h:394-404 | the binary search finds how many records start at or before the bit |
| `Bitmaps.AppendBitmapData.Test` | include/knowhere/array_store.h:393-411 | a bit is reported exactly when it is logged and set |
| `Bitmaps.AppendBitmapData.GetByte` | include/knowhere/array_store.h:370-385 | the packed byte of the logged bits, zero beyond their end |
| `Bitmaps.MaskedTail` | include/knowhere/array_store.h:543-551 | masking the tail keeps the counted bits and makes every byte the packed form of them |
| `Bitmaps.BitmapArray.SetType` | include/knowhere/array_store.h:443-455 | sealed storage starts empty; append-only storage shows all that was appended to it |
| `Bitmaps.BitmapArray.Set` | include/knowhere/array_store.h:483-496 | the contents become the first `count` bits and every stored byte is their packed form |
| `Bitmaps.BitmapArray.Append` | include/knowhere/array_store.h:498-511 | extends an open bitmap by the first `count` bits; refuses sealed bitmaps and snapshots |
| `Bitmaps.BitmapArray.Size` | include/knowhere/array_store.h:462-471 | the number of bits shown |
| `Bitmaps.BitmapArray.IsEmpty` | include/knowhere/array_store.h:473-476 | holds exactly when no bit is shown |
| `Bitmaps.BitmapArray.GetByte` | include/knowhere/array_store.h:478-481 | a stored byte, or the packed byte of all logged bits at any index |
| `Bitmaps.BitmapArray.PackedBit` | include/knowhere/id_map.h:480-483 | a bit is reported exactly when it is shown and set |
| `Bitmaps.BitmapArray.Clear` | include/knowhere/array_store.h:513-518 | drops all bits and storage |
| `Bitmaps.BitmapArray.Prefix` | include/knowhere/array_store.h:520-525 | shows the first `min(count, size)` bits |
| `Bitmaps.BitmapArray.SnapshotUnchanged` | include/knowhere/array_store.h:535-541 | a snapshot of an append-only bitmap shows the same bits after any appends |
| `Bitmaps.BitmapArray.ReadBytes` | include/knowhere/array_store.h:478-481 | the bytes read one by one hold the bits of the storage, for a snapshot those of the log |
| `Bitmaps.BitmapArray.StoredIsOwn` | include/knowhere/array_store.h:478-481 | as far as a bitmap or snapshot goes the storage holds its own bits, whatever was appended since |
| `Bitmaps.BytesShowOwn` | include/knowhere/array_store.h:370-385 | bytes of a growing log, each read at its own moment, show the bits logged before |
| `Bitmaps.SplitEqualsWhole` | include/knowhere/array_store.h:333-415 | for every way to cut a bit string into batches, with any padding, each byte of the log is the byte of the masked whole |
| `Bitmaps.BitmapArray.ByteStableIff` | include/knowhere/array_store.h:478-481 | a byte read from an append-only bitmap or a snapshot of it stays the same under every later append if and only if all its eight bits are logged |
| `Bitmaps.BitmapArray.ByteIsOwnIff` | include/knowhere/array_store.h:520-525 | a byte read through a snapshot is the packed byte of its own bits if and only if no logged bit of the byte beyond the snapshot is set |
| `Bitmaps.BitmapArray.CompleteByteUnchanged` | include/knowhere/array_store.h:478-481 | a byte whose eight bits were logged reads the same after any appends |
| `IdDomain.CountThroughEnumeration` | include/knowhere/bitsetview.h:317-399 | counting selected bits through any enumeration of the valid ids is a population count of the masked bits |
| `IdDomain.LinkedEnumerates` | include/knowhere/id_map.h:200-233 | mutually inverse tables list each valid id once |
| `IdDomain.LinkedAppend` | include/knowhere/id_map.h:228-231 | appending a batch's bits, ids and inverse to mutually inverse tables keeps them mutually inverse |
| `IdMapSpec.MarkEnumerates` | include/knowhere/id_map.h:167-182 | the `IDS` format is accepted exactly for distinct ids in the domain, and the marked bitmap then has exactly those bits |
| `IdMapSpec.ParseEnumerates` | include/knowhere/id_map.h:145-272 | every accepted input gives ids that enumerate its validity bits inside the `int32` domain |
| `IdMapSpec.ParseIds` | include/knowhere/id_map.h:147-199 | an `IDS` input is accepted exactly when it announces public ids that fit, its list is there and its ids are different and inside the domain; its ids keep their order and the bits say which public ids are listed |
| `IdMapSpec.ParseRefuses` | include/knowhere/id_map.h:145-272 | which error each refused input gets, the first problem in the order of the checks |
| `IdMapSpec.MarkRefuses` | include/knowhere/id_map.h:169-181 | the error of an `IDS` list is that of its first bad id |
| `IdMapSpec.InverseFills` | include/knowhere/id_map.h:184-188 | the inverse of an accepted batch is what the adaptive store appends |
| `IdMapTheorems.StoresCannotRefuse` | include/knowhere/id_map.h:184-188 | after validation no store can refuse any part of a growing batch, so no half-written batch is published |
| `IdMapTheorems.AppendBatchKeepsInv` | include/knowhere/id_map.h:228-231 | an accepted batch keeps bitmap, ids, inverse and counts consistent |
| `IdMapTheorems.GrowKeepsInv` | include/knowhere/id_map.h:145-272 | any input, accepted or refused, keeps the map consistent and only extends it |
| `IdMapTheorems.GrownIsBijection` | include/knowhere/id_map.h:385-445 | after any inputs the two lookups are mutually inverse between backend ids below `InCount`, all stored, and valid public ids, invalid ids lead to -1, and `InCount` counts the valid bits |
| `IdMapTheorems.GrownByIds` | include/knowhere/id_map.h:167-188 | after an `IDS` batch vector number i of it leads to the i-th id given, shifted, and back; other new public ids are invalid and lead to -1 |
| `IdMapTheorems.SealedByIds` | include/knowhere/id_map.h:167-197 | after an `IDS` publish to a sealed map vector number i leads to the i-th id given and back; other public ids are invalid |
| `IdMapTheorems.GrownByValidity` | include/knowhere/id_map.h:220-231 | after a validity batch each new public id is valid as its bit or boolean says |
| `IdMapTheorems.SealedByValidity` | include/knowhere/id_map.h:208-213 | after a validity publish each public id is valid as its bit or boolean says |
| `IdMapTheorems.NoDataIsIdentity` | include/knowhere/id_map.h:439-445 | a map without data takes every id for itself in both directions and for valid |
| `IdMapTheorems.LookupsOutside` | include/knowhere/id_map.h:385-445 | ids beyond the counts lead to -1 and are not valid; negative ids stay negative |
| `IdMapTheorems.PublishedIdsAreStable` | include/knowhere/id_map.h:385-445 | no later input changes any answer about an id published before |
| `IdMapTheorems.ParseValidity` | include/knowhere/id_map.h:200-268 | both validity formats give the same batch for the same bits, and refuse only a domain beyond `int32` |
| `IdMapTheorems.GrownFromValidity` | include/knowhere/id_map.h:200-268 | growing by validity batches yields the concatenated bitmap and its set bits as ids |
| `IdMapTheorems.SealedShape` | include/knowhere/id_map.h:274-307 | a fresh sealed map, given validity and finalized, holds the bitmap, its set bits and their inverse in whichever form the store chose |
| `IdMapTheorems.BatchesEqualSealed` | include/knowhere/id_map.h:200-307 | validity fed to a growing map in any batches answers every query about every id as the whole given once to a sealed map and finalized |
| `SealedRuns.RunHolds` | include/knowhere/id_map.h:145-307 | after any publishes and finalizations a sealed map holds the bits given last, the ids in force, and the inverse of the last list of ids that was not empty |
| `SealedRuns.SealedIsTwoWayIff` | include/knowhere/id_map.h:145-307 | the two lookups are then mutually inverse and every counted id is stored if and only if the ids given fit the bits given last, id by id |
| `SealedRuns.SealedReadsPastIff` | include/knowhere/id_map.h:411-420 | some lookup reads beyond the stored ids if and only if ids are in force and fewer than the valid public ids given last |
| `SealedRuns.KeptIsTwoWay` | include/knowhere/id_map.h:145-307 | finalized last, the lookups are mutually inverse if validity that reaches a map with ids is theirs and no list without ids follows one with ids |
| `SealedRuns.IdsBeyondDoNoHarm` | include/knowhere/id_map.h:145-307 | that discipline is not necessary: ids that lie beyond a later, smaller publish leave the lookups mutually inverse |
| `SealedRuns.MoreValidityMisleads` | include/knowhere/id_map.h:285-287 | ids for one of two public ids, validity for both, finalization: the second backend id is counted and not stored, the second public id valid and unmapped |
| `SealedRuns.NoIdsMislead` | include/knowhere/id_map.h:189-195 | ids for one of two public ids, then none: an invalid public id still leads to a backend id that is not counted |
| `IdDomain.HitsEnumerate` | include/knowhere/id_map.h:289-296 | distinct ids of valid public ids, as many as there are, list them all |
| `IdMapInput.SetPackedBitBits` | include/knowhere/id_map.h:485-488 | sets exactly that bit |
| `IdMapInput.ReadIds` | include/knowhere/id_map.h:167-182 | shifted ids and their bitmap, or the first id's error |
| `IdMapInput.ReadBitmap` | include/knowhere/id_map.h:220-226 | the set bits, shifted, in order |
| `IdMapInput.ReadBools` | include/knowhere/id_map.h:255-261 | the true positions, shifted, in order |
| `IdMapInput.PackBools` | include/knowhere/id_map.h:529-541 | packed bytes that unpack to the booleans |
| `IdMapInput.CountPackedBitmap` | include/knowhere/id_map.h:501-527 | the number of set bits below the count, whatever pads the last byte |
| `IdMapInput.Overflows` | include/knowhere/id_map.h:490-499 | holds exactly when there are new ids and the last of them is not an `int32` |
| `IdMapInput.ReadGrowing` | include/knowhere/id_map.h:145-268 | each format read into a batch or the error of its first problem, for a growing map |
| `IdMapInput.ReadSealed` | include/knowhere/id_map.h:145-268 | each format read into a batch or the error of its first problem, for a sealed map |
| `IdMaps.IdMap.SetType` | include/knowhere/id_map.h:69-82 | succeeds exactly for the type a map has, which changes nothing, and for a map that holds nothing, which becomes an empty one of the type |
| `IdMaps.IdMap.AppendValidated` | include/knowhere/id_map.h:184-188 | the three stores and the counts take the batch, and what readers can load after each store is exactly the trace of the protocol |
| `IdMaps.IdMap.PublishCounts` | include/knowhere/id_map.h:585-589 | publishing the counts completes the extended map; in between readers see the new valid count and the old public count |
| `IdMaps.IdMap.AddGrowing` | include/knowhere/id_map.h:145-268 | the map becomes the one grown by the parsed input, and what readers can load meanwhile are protocol steps from the old map to the new |
| `IdMaps.IdMap.AddSealedIds` | include/knowhere/id_map.h:189-197 | a sealed map takes the bitmap, the ids and, unless there are none, their inverse |
| `IdMaps.IdMap.AddSealedValidity` | include/knowhere/id_map.h:208-213 | a sealed map takes the bitmap and counts its set bits; ids are derived later |
| `IdMaps.IdMap.AddFromData` | include/knowhere/id_map.h:145-272 | applies exactly the parsed batch or reports exactly the parse error and changes nothing, for every type and format; on a growing map by protocol steps only |
| `IdMaps.IdMap.CollectValid` | include/knowhere/id_map.h:289-296 | the valid public ids in ascending order |
| `IdMaps.IdMap.FinalizeVectorIds` | include/knowhere/id_map.h:274-307 | derives ids, inverse and count of a sealed map from its bitmap unless ids are there; leaves a growing map as it is |
| `IdMaps.IdMap.IsValidOutId` | include/knowhere/id_map.h:385-396 | the validity of a public id, any id when there is no bitmap |
| `IdMaps.IdMap.MapInToOut` | include/knowhere/id_map.h:411-420 | the public id of a stored backend id, the id itself when it is negative or there is no map, -1 beyond the count; says exactly when the code would read beyond the stored ids |
| `IdMaps.IdMap.MapOutToIn` | include/knowhere/id_map.h:439-445 | the backend id of a public id, the id itself in an empty map, -1 if it is negative, out of range or invalid |
| `IdMaps.IdMap.CompactOutToIn` | include/knowhere/id_map.h:447-465 | the backend ids of those public ids that have one, in order; a null pointer with a count is refused and leaves the result alone |
| `IdMaps.CompactedAt` | include/knowhere/id_map.h:447-465 | the backend id of a public id stands behind those of the public ids before it that have one |
| `IdMaps.IdMap.ValidBitmap` | include/knowhere/id_map.h:398-401 | a snapshot of the validity of all public ids that shares the append log |
| `IdMaps.IdMap.InToOutIds` | include/knowhere/id_map.h:403-409 | a snapshot of the ids up to the valid count that shares the append-only array |
| `IdMaps.IdMap.SnapshotOutlivesAppends` | include/knowhere/id_map.h:403-409 | such a snapshot shows the same ids after any growth of the map |
| `IdMapProtocol.StoresAdvance` | include/knowhere/id_map.h:228-231 | the writer moves through the partial states of a batch in program order and ends in the published map |
| `IdMapProtocol.StoreKeeps` | include/knowhere/id_map.h:228-231 | each of the six stores of a growing add, in program order, keeps the invariant and only extends what readers see |
| `IdMapProtocol.AddTraceSteps` | include/knowhere/id_map.h:200-233 | the trace of an accepted batch is a sequence of protocol steps from the old map to the appended one |
| `IdMapProtocol.GrowLeads` | include/knowhere/id_map.h:145-268 | any input, accepted or not, is a sequence of protocol steps from the old map to the grown one |
| `IdMapProtocol.Continues` | include/knowhere/id_map.h:200-233 | the steps of one call continue any run that ends where they start |
| `IdMapProtocol.StepKeeps` | include/knowhere/id_map.h:200-233 | every step of the writer keeps the invariant and only extends what readers see |
| `IdMapProtocol.PublishedIsComplete` | include/knowhere/id_map.h:585-589 | in every reachable state each public id below the published count leads to a counted and listed backend id that leads back, or to -1 if invalid |
| `IdMapProtocol.RunKeeps` | include/knowhere/id_map.h:200-233 | the invariant holds at every moment of every run |
| `IdMapProtocol.RunExtends` | include/knowhere/id_map.h:200-233 | between two moments of a run everything readers see only grows |
| `IdMapProtocol.QuietLookups` | include/knowhere/id_map.h:385-445 | between two batches the loads of a reader give what the lookups of the published map give |
| `IdMapProtocol.ReadOutToInPublished` | include/knowhere/id_map.h:439-445 | a lookup whose loads happen at different moments returns what the table holds at any later moment |
| `IdMapProtocol.LaterIsValid` | include/knowhere/id_map.h:385-396 | an id that was mapped is valid for every later reader |
| `IdMapProtocol.LaterInToOut` | include/knowhere/id_map.h:411-420 | the backend id that was found maps back for every later reader |
| `IdMapProtocol.LookupsAreStable` | include/knowhere/id_map.h:543-553 | a later lookup of a published id returns the same backend id, also -1 |
| `IdMapProtocol.ReadersAgree` | include/knowhere/id_map.h:385-445 | for a reader that saw a non-zero count and mapped o to i >= 0, at all later moments i is counted, maps back to o, o is valid and still maps to i |
| `IdMapProtocol.UnpublishedLookupMisleads` | include/knowhere/id_map.h:439-445 | for every run that ends between batches with count zero and every id, a lookup takes the id for a backend id and some continuation declares it invalid |
| `IdMapProtocol.CountedIsBacked` | include/knowhere/id_map.h:585-589 | in every reachable state each counted backend id is listed and names an id that is recorded as valid and leads back in the table |
| `IdMapProtocol.FoundLeadsBackIff` | include/knowhere/id_map.h:439-445 | a public id found for a counted backend id leads back for a later reader if and only if it is below the public count that reader loads, or the reader loads zero and the two are equal |
| `IdMapProtocol.FoundIsValidIff` | include/knowhere/id_map.h:385-396 | it is valid for a later reader if and only if that reader loads no count, or one above it |
| `IdMapProtocol.EarlyLookupMisleads` | include/knowhere/id_map.h:585-589 | every run that ends between batches with a non-zero count can go on to a moment at which a counted backend id leads to a public id that reads as invalid and unmapped |
| `IdMapProtocol.SecondIdMisleads` | include/knowhere/id_map.h:585-589 | the run of two batches of one valid id: with public count one, backend id 1 leads to public id 1, which reads as invalid and unmapped |
| `WordScan.LoadWordChecked` | include/knowhere/bitsetview.h:414-433 | the 64 bits of a word, zero where the bitmap has no byte |
| `Bits.MaskValue` | include/knowhere/bitsetview.h:336 | a mask of `count` bits from `from` on is the number (2^count - 1) * 2^from that the code writes with shifts |
| `Bits.BitAtPlace` | include/knowhere/bitsetview.h:182 | bit k of a packed bitmap has weight 1 << (k & 7) in byte k >> 3 |
| `Bits.LoadWordValue` | include/knowhere/bitsetview.h:407-412 | a 64-bit load is little-endian |
| `Bits.PopIsOnes` | include/knowhere/bitsetview.h:352-363 | a population count is the number of set bits |
| `WordScan.WindowMask` | include/knowhere/bitsetview.h:401-405 | the combined masks select exactly the bits of the window |
| `WordScan.MaskedWordFull` | include/knowhere/bitsetview.h:435-456 | a masked word equals its mask exactly when the window is all set |
| `WordScan.AllBitsSet` | include/knowhere/bitsetview.h:435-456 | holds exactly when every bit of the range is set |
| `BitsetViews.BitsetView.SetOutIds` | include/knowhere/bitsetview.h:135-142 | takes the ids or refuses a count beyond them and changes nothing |
| `BitsetViews.BitsetView.RangeAllFiltered` | include/knowhere/bitsetview.h:192-218 | holds exactly when the per-id test is true on the whole range, mapped or contiguous, at every offset |
| `BitsetViews.BitsetView.PreviousValidIndex` | include/knowhere/bitsetview.h:221-265 | the greatest unfiltered id below the bound or none, for every view whose count is unknown or correct and whose offset pushes no id past the map; a view that is taken for empty answers bound - 1 |
| `BitsetViews.EmptyIsUnfiltered` | include/knowhere/bitsetview.h:50-59 | such a view is taken for empty only with a known count and only if it filters nothing |
| `BitsetViews.UnfilteredIff` | include/knowhere/bitsetview.h:165-183 | an id passes exactly when it has a public id whose bit is there and clear |
| `BitsetViews.OffsetIsSlice` | include/knowhere/bitsetview.h:165-183 | an offset into a mapped view is the view of the ids from there on |
| `BitsetViews.HighestClear` | include/knowhere/bitsetview.h:243-264 | the downward word scan finds the highest clear bit of the window |
| `BitsetViews.BitsetView.GetFirstValidIndex` | include/knowhere/bitsetview.h:268-301 | the least unfiltered id below the size, or the size |
| `BitsetViews.LowestClear` | include/knowhere/bitsetview.h:285-298 | the upward word scan finds the lowest clear bit of the window |
| `BitsetViews.BitsetView.CountFilteredBits` | include/knowhere/bitsetview.h:317-399 | the two counters are the numbers of valid ids and of valid filtered ids in the window and the bitset |
| `FilterCount.CountWindow` | include/knowhere/bitsetview.h:317-399 | head byte, whole words, whole bytes and tail byte together count every bit of the window once |
| `FilterCount.CountAligned` | include/knowhere/bitsetview.h:350-395 | from a byte boundary on, words, bytes and the tail count every bit once |
| `FilterCount.CountWord` | include/knowhere/bitsetview.h:352-363 | one 64-bit step counts its 64 bits |
| `FilterCount.CountByte` | include/knowhere/bitsetview.h:333-348 | a masked byte counts exactly the bits of its window |
| `FilterTheorems.TestedByFilter` | include/knowhere/bitsetview.h:165-183 | through an id map the per-id test filters as many backend ids as there are valid filtered public ids |
| `FilterTheorems.CountersAgreeIff` | include/knowhere/bitsetview.h:317-399 | through an id map the population counts equal the number of backend vectors and the number that the per-id test filters, each if and only if no valid public id lies beyond the bitset |
| `FilterTheorems.CountThroughMap` | include/knowhere/bitsetview.h:317-399 | the same of the two counters that counting all public ids of the map leaves in the view |
| `FilterTheorems.GrownIsListed` | include/knowhere/id_map.h:145-268 | the map grown by any inputs lists its valid ids, so the two laws above hold of it |
| `FilterTheorems.SealedIsListed` | include/knowhere/id_map.h:145-307 | so does a fresh sealed map after one publish in any format and finalization |
| `FilterTheorems.UncoveredVectorIsMissed` | include/knowhere/bitsetview.h:317-399 | for one bit over two valid ids both counters are wrong |
| `FilterSnapshots.CountFilteredIn` | include/knowhere/bitsetview.h:106-118 | the two counters through a bitmap: the valid and the valid filtered ids of the covered window, by the bits of its storage |
| `FilterSnapshots.CountBitmapBits` | include/knowhere/index/index_node.h:571-618 | the number of set bits of the bitmap from an offset on |
| `FilterSnapshots.CalcBitsetCount` | include/knowhere/index/index_node.h:619-741 | the counters over all public ids; valid ids of the snapshot beyond the bitset are added as filtered; nothing changes without a bitset |
| `FilterSnapshots.CalculatedIff` | include/knowhere/index/index_node.h:619-741 | these are the number of backend vectors if and only if no id beyond the snapshot within the bitset shows as valid, and the number the per-id test filters if and only if none shows as valid and filtered |
| `FilterSnapshots.CalcThroughSnapshot` | include/knowhere/index/index_node.h:619-741 | the same of the counters left in the view, whatever was appended since the snapshot |
| `FilterSnapshots.LaterIdIsCounted` | include/knowhere/index/index_node.h:727-729 | a snapshot of one id, a second one appended since and a bitset of two bits: both are counted |
| `FilterTheorems.ContiguousCountersAgree` | include/knowhere/bitsetview.h:165-183 | without an id map the per-id test filters as many ids as the window has set bits |
| `BitsetViews.EmptyIffUnfiltered` | include/knowhere/bitsetview.h:50-59 | given a correct count, `empty` holds exactly when no id of the view is filtered, except for a count of 0 when an offset pushes ids past the end of the id map |
| `FilterTheorems.OffsetMappedViewMisleads` | include/knowhere/bitsetview.h:458-467 | a mapped view with an offset that is called empty although it filters an id |
| `EmbLists.CheckOffsets` | include/knowhere/emb_list_utils.h:31-50 | offsets pass exactly when they are there, start at zero, never go down and end at the rows; otherwise the first problem in the order of the checks is reported |
| `EmbLists.UpperBound` | include/knowhere/emb_list_utils.h:78-82 | splits the offsets into those up to v and those above |
| `EmbLists.GetElId` | include/knowhere/emb_list_utils.h:78-82 | the only list that holds the vector, empty lists included in the offsets |
| `EmbLists.GetElLen` | include/knowhere/emb_list_utils.h:84-88 | the number of vectors of a list |
| `EmbLists.GetVids` | include/knowhere/emb_list_utils.h:90-96 | exactly the vectors of a list, in order |
| `EmbLists.FillListIds` | include/knowhere/id_map.h:309-334 | the vector-to-list ids, refused exactly for offsets that go down or lists without a public id, with the error of the first such list |
| `EmbLists.ListOutIsLookup` | include/knowhere/id_map.h:555-567 | the public id of a list is what the id map says of it |
| `EmbLists.ListIds.Finalize` | include/knowhere/id_map.h:309-334 | no lists change nothing, null offsets or the first bad list are reported and nothing is stored, otherwise the ids replace those of a sealed map and extend those of a growing one |
| `EmbLists.ListIds.Append` | include/knowhere/id_map.h:347-373 | the ids of a batch extend the stored ones, or its first problem is reported and nothing is stored; a sealed map refuses any |
| `EmbLists.ListIds.InToOutIds` | include/knowhere/id_map.h:403-409 | in the list domain a snapshot of all stored ids that shares the append-only array |
| `EmbLists.VectorListIdsAt` | include/knowhere/id_map.h:321-328 | every vector of a list is stored with that list's public id |
| `EmbLists.LookupMatchesStored` | include/knowhere/id_map.h:309-334 | the stored id of every vector is the public id of the list that the offsets give for it |
| `EmbLists.JoinedLists` | include/knowhere/id_map.h:347-373 | the ids for joined offsets are those of the first part followed by those of the second, numbered on |
| `EmbLists.SameIdsIff` | include/knowhere/id_map.h:555-567 | two maps give all vectors the same list ids if and only if every non-empty list has the same public id in both |
| `EmbLists.AppendedEqualsBuiltOnceIff` | include/knowhere/id_map.h:347-373 | ids extended by any batches, each with the map of its time, equal ids built once from the joined offsets with the last map if and only if every non-empty list keeps its id |
| `EmbLists.GrownEqualIff` | include/knowhere/id_map.h:347-373 | for a map that only grows, if and only if each non-empty list stored before the map had ids is sent to itself later |
| `EmbLists.GrownWithIdsEqual` | include/knowhere/id_map.h:347-373 | whenever the map had ids at each batch the last map has an id for every list and the stored ids are those built once |
| `EmbLists.GrownIdsMayDiffer` | include/knowhere/id_map.h:347-373 | a list stored before the map publishes id 5 for it keeps 0 where building once gives 5 |
| `EmbLists.OwnIdIff` | include/knowhere/id_map.h:274-307 | a map derived from validity sends a list to itself if and only if every public id up to it is valid |
| `EmbLists.GrowthKeepsListOut` | include/knowhere/id_map.h:555-567 | a list keeps its public id as the map grows if and only if the map had ids, stays without, or sends the list to itself |
| `OrderedMaxSims.NextColumn` | include/knowhere/emb_list_utils.h:196-208 | the better of the left cell and the cell above plus the entry is the best over all ordered assignments ending there |
| `OrderedMaxSims.AddRow` | include/knowhere/emb_list_utils.h:196-201 | the in-place update turns best scores of i rows into best scores of i + 1 rows in every column |
| `OrderedMaxSims.ScoreByRows` | include/knowhere/emb_list_utils.h:196-201 | the score of an assignment is the sum of what each row has at its position, entry j of row i standing at i * len + j |
| `OrderedMaxSims.OrderedSumMaxSim` | include/knowhere/emb_list_utils.h:188-211 | for the rows that the matrix holds, no nondecreasing assignment to positions beats the result and one attains it, for either direction; none without rows or positions |
| `ResultHeaps.SiftDown` | include/knowhere/heap.h:129-161 | restores the heap order below the top, keeps the entries and touches nothing behind the heap |
| `ResultHeaps.PushHeap` | include/knowhere/heap.h:43-49 | the last entry rises so that all are in heap order, entries kept |
| `ResultHeaps.PopHeap` | include/knowhere/heap.h:80-90 | the top moves to the end, the rest is in heap order, entries kept |
| `ResultHeaps.ReplaceTop` | include/knowhere/heap.h:50-55 | the full case replaces exactly the top |
| `ResultHeaps.TopIsWorst` | include/knowhere/heap.h:66-71 | no entry of a heap is worse than its top |
| `ResultHeaps.ResultHeap.WouldEnter` | include/knowhere/heap.h:59-64 | holds exactly when there is room or the value beats a worst entry kept |
| `ResultHeaps.ResultHeap.Push` | include/knowhere/heap.h:37-57 | keeps the heap order, the threshold and the k best of everything pushed; tells exactly which values enter |
| `ResultHeaps.ResultHeap.Pop` | include/knowhere/heap.h:79-90 | removes a worst entry, or reports that there is none |
| `ResultHeaps.ResultHeap.Clear` | include/knowhere/heap.h:115-119 | empties the heap |
| `ResultHeaps.ResultHeap.Finalize` | include/knowhere/heap.h:93-96 | the same entries, best first, still the k best of everything pushed |
| `ResultHeaps.SortHeap` | include/knowhere/heap.h:93-96 | the entries of a heap, best first, entries kept |
| `ResultHeaps.PushKeepsTopK` | include/knowhere/heap.h:37-57 | the k best stay the k best with one more entry |
| `ResultHeaps.TopKDistances` | include/knowhere/heap.h:37-96 | the sorted results carry exactly the first k distances of everything pushed in sorted order, whatever the order of pushes and ties |
| `RangeSearches.OrderedTask` | src/index/index_node.cc:96-134 | the results are the in-range candidates among those consumed, and it consumes up to the first too far or the k-th result; closest first they are exactly the first k of all in range, all if k is negative |
| `RangeSearches.UnorderedTask` | src/index/index_node.cc:141-202 | every consumed candidate in range is a result or has k results no further than it; without a limit the results are all of them, in order; there are bounds in force that explain every result |
| `RangeSearches.OverLimitIff` | src/index/index_node.cc:183-184 | a run passes the limit exactly when it is at least the consumed count times the level, plus one |
| `RangeSearches.RunIsFarSince` | src/index/index_node.cc:176-188 | the run is the number of candidates too far after which none was kept; those too close neither count nor end it |
| `RangeSearches.Sides` | src/index/index_node.cc:48-54 | too close, inside and too far in plain numbers, for both directions |
| `RangeSearches.ScanUnordered` | src/index/index_node.cc:141-202 | results are the candidates inside the bound in force when they came, the bounds are the k-th closest but for one furthest of the first k and never move further, and the scan ends at the end or at the first candidate that makes at least consumed * level + 1 of them too far since the last one kept |
| `RangeSearches.Retain` | src/index/index_node.cc:189-197 | the queue stays the k closest results but for one furthest of the first k, and its top is the bound |
| `RangeSearches.BoundsNeverMoveFurther` | src/index/index_node.cc:141-202 | no later bound is further than an earlier one |
| `RangeSearches.TurnedAwayHaveK` | src/index/index_node.cc:176-188 | a consumed candidate inside the range that was not kept has at least k results no further than it |
| `RangeSearches.AllAccounted` | src/index/index_node.cc:176-200 | a consumed candidate in range is kept, or a limit is set and k results are no further |
| `RangeSearches.UnlimitedKeepsAll` | src/index/index_node.cc:141-202 | without a limit the results are exactly the consumed candidates in range, in order |
| `RangeSearches.FirstResults` | src/index/index_node.cc:176-197 | up to one more than k, the results are the candidates in range in order |
| `RangeSearches.CaughtUpByCandidates` | src/index/index_node.cc:176-197 | a result after the first k is no further than a furthest of those if and only if a candidate in range is |
| `RangeSearches.BoundIsKthIff` | src/index/index_node.cc:189-197 | once more than k candidates are in range, the bound is the k-th closest result if and only if some candidate in range after the first k is no further than a furthest of the first k |
| `RangeSearches.BoundMayLag` | src/index/index_node.cc:189-197 | two candidates in range, limit one: the bounds of the scan end at the further one, not the closest |
| `RangeSearches.InRangeExactly` | src/index/index_node.cc:48-54 | the in-range list holds exactly the candidates in range |
| `RangeSearches.InRangeAt` | src/index/index_node.cc:119-131 | a candidate in range stands behind those in range before it |
| `RangeResults.RangeTestsAgree` | include/knowhere/range_util.h:22-25 | the range test on finished lists is the test of the iterator tasks |
| `RangeResults.FilterOneQuery` | src/common/range_util.cc:26-46 | compacts both vectors in place to exactly the entries in range, in order; refuses different sizes and changes nothing |
| `RangeResults.SliceIsList` | src/common/range_util.cc:58-79 | the offsets cut each list out of the joined lists unchanged |
| `RangeResults.GetRangeSearchResult` | src/common/range_util.cc:48-82 | offsets from zero, arrays only if there is a result, and every query's list recovered by its offsets; refuses a wrong number of lists |
| `RangeResults.RangeSearch` | src/index/index_node.cc:37-249 | every query's slice of the flattened distances and labels holds, entry by entry, a result its candidates allow: none for a limit of zero, for ordered iterators those in range up to the stop of the task |
| `BinarySearches.LowerBoundRef` | src/simd/distances_ref.cc:580-596 | the least index holding at least the target, -1 if there is none |
| `BinarySearches.FindRef` | src/simd/distances_ref.cc:561-579 | the first index holding the key, -1 if there is none |
| `BinarySearches.LowerBoundChunked` | src/simd/distances_avx512.cc:914-968 | terminates with the least index holding at least the target, -1 if there is none |
| `BinarySearches.FindChunked` | src/simd/distances_avx512.cc:839-913 | terminates with an index holding the key exactly when there is one, -1 otherwise |
| `BinarySearches.FindSmall` | src/simd/distances_avx512.cc:847-862 | chunks and tail cover up to 32 entries, sorted or not |
| `BinarySearches.NarrowByChunks` | src/simd/distances_avx512.cc:867-899 | never narrows the key away, also when the aligned chunk starts before the left bound |
| `BinarySearches.ChunkSides` | src/simd/distances_avx512.cc:875-888 | the fifth entry of a chunk without the key tells on which side of the chunk the key is |
| `BinarySearches.LowerBoundsAgree` | src/simd/distances_avx512.cc:914-968 | the chunked and the scalar lower bound are equal |
| `BinarySearches.FindsAgree` | src/simd/distances_avx512.cc:839-913 | the chunked and the scalar search find the key or not together, and differ only by equal entries |
| `Rabitq.DotRef` | src/simd/distances_ref.cc:475-504 | the weighted counts of shared bits over whole bytes |
| `Rabitq.DotBlocks` | src/simd/distances_avx512icx.cc:36-89 | blocks of 512, 256 and 128 bits, folded lanes and the masked tail give the weighted counts over whole bytes |
| `Rabitq.DotPlanes` | src/simd/distances_avx512icx.cc:25-90 | the same for every dimension and number of planes |
| `Rabitq.BlocksTile` | src/simd/distances_avx512icx.cc:30-34 | the blocks and the tail cover every byte once, the tail at most 16 bytes |
| `Rabitq.PlaneStep` | src/simd/distances_avx512icx.cc:37-43 | one and, popcount, shift and add of lanes adds the weighted count of one plane |
| `Rabitq.WeightedIsCodeSum` | src/simd/distances_ref.cc:475-504 | the weighted counts are the sum over set bits of the code of the integer the planes encode there |
| `Rabitq.EncodedIsValue` | src/simd/distances_ref.cc:475-504 | the integer encoded at a position is the value of its bits in the planes, plane j starting at bit j * 8 * di and weighing 2^j |
| `Rabitq.CodeSumIsDot` | src/simd/distances_ref.cc:475-504 | the product is the dot product of these integers with the code |
| `Rabitq.CodeSumBound` | src/simd/distances_ref.cc:475-504 | the product is at most the number of bits times the largest encoded integer |
| `Rabitq.DotDispatched` | src/simd/distances_avx512icx.cc:94-116 | the sum over set bits of the encoded integers for one to eight planes, 0 otherwise |
| `Rabitq.CodeSumPositive` | src/simd/distances_ref.cc:475-504 | the product is positive if and only if the code shares a set bit with some plane |
| `Rabitq.KernelsAgree` | src/simd/distances_avx512icx.cc:94-116 | the two kernels agree if and only if there are at most eight planes or the code shares no set bit with any plane |
| `Rabitq.NineMayDiffer` | src/simd/distances_avx512icx.cc:94-116 | nine planes on which the scalar product is not the 0 of the dispatched kernel |
| `L2Kernels.PairsInOrder` | src/simd/distances_avx.cc:328-331 | a horizontal addition and the permutation put the pair sums in order |
| `L2Kernels.HalvesInOrder` | src/simd/distances_avx.cc:377-380 | two levels of horizontal additions and the permutation put the row sums in order |
| `L2Kernels.Distances2` | src/simd/distances_avx.cc:310-356 | for every number of rows each distance is the squared L2 distance and nothing else is written |
| `L2Kernels.Distances4` | src/simd/distances_avx.cc:358-425 | for every number of rows each distance is the squared L2 distance and nothing else is written |
| `L2Kernels.RowDistExpands` | src/simd/distances_ref.cc:68-74 | the distance of row i is the sum of both squared norms less twice the inner product, the row starting at i * d |
| `L2Kernels.L2sqrBatch4` | src/simd/distances_avx.cc:230-252 | four squared L2 distances at once |
| `L2Kernels.DistancesAny` | src/simd/distances_avx.cc:292-307 | batches of four and the rows left over, for every dimension and number of rows |
| `L2Kernels.Distances` | src/simd/distances_avx.cc:428-438 | the dispatched kernel writes every row's squared L2 distance and nothing else |
| `L2Kernels.DistancesRef` | src/simd/distances_ref.cc:68-74 | the scalar kernel writes every row's squared L2 distance and nothing else |
| `L2Kernels.ScanMin` | src/simd/distances_avx.cc:444-453 | the first minimum if a distance is below the start, 0 otherwise |
| `L2Kernels.NearestRef` | src/simd/distances_ref.cc:104-123 | the first index of the minimum, 0 without rows |
| `L2Kernels.Nearest` | src/simd/distances_avx.cc:439-455 | the first index of the minimum if some row is nearer than the largest float, 0 otherwise |
| `L2Kernels.NearestIsFirstMinIff` | src/simd/distances_avx.cc:439-455 | the result is the first minimum if and only if some row is nearer than the largest float or the first row is a nearest one |
| `L2Kernels.LargestFloat` | src/simd/distances_avx.cc:439-455 | the start value of the scan is (2^24 - 1) * 2^104 |
| `L2Kernels.NearestMayMiss` | src/simd/distances_avx.cc:439-455 | two rows of which the second is nearest but not below the largest float, so that the first is returned |

## Left out

- ArrayStores.ArrayStore.Put: the sealed array is a value of its store; in the code copies of a sealed store share the array and would show the write.
- IdMaps.IdMap.MapInToOut: what the code returns when it reads beyond the stored ids; `SealedReadsPastIff` says when it does.
- IdMaps.IdMap.SetType: the list ids are kept apart in `EmbLists.ListIds`, so a map that holds only list ids changes its type here and refuses in the code.
- IdMaps.IdMap.InToOutIds: the vector domain only; `EmbLists.ListIds.InToOutIds` is the list domain.
- FilterSnapshots.CalcBitsetCount: the whole range of a vector index with a validity bitmap; partial ranges, embedding lists and maps without validity are left out. A sealed bitmap must have a byte for each bit of the bitset, as the code reads them unchecked.
- EmbLists.ListIds.Append: the list map is passed as it is at the call, not read from the id map while it grows.
- IdMapProtocol.ReadersAgree: atomics are single steps in one order; weaker orderings of the C++ memory model are not modelled.
- BinarySearches.FindChunked: arrays have fewer than 2^31 entries, as the `int` result requires.
- Rabitq.DotPlanes: lanes are unbounded; `CodeSumBound` says which inputs stay below 2^31.
- L2Kernels.Nearest: exact arithmetic, so distances beyond the largest float are numbers and not infinity.
- AdaptiveStores.AdaptiveStore.Set: the fill ratio is compared exactly, not in `double`.
- Rounding, NaN and infinity of `float` and `double` throughout.
- Memory-mapped backing files and their paths; a mapped store is an ordinary one that never uses the sparse form.
- Null pointer checks inside the stores, and views set by `SetView`; the id map passes them its own buffers.
- `ClearIds`, `ClearEblIds`, the bulk `MapInToOut` and the move of an id map.
- The append of derived ids in `FinalizeVectorIds` on a growing map, which never happens because a growing map that has a valid id has its ids.
- Allocation failures, and exceptions thrown while a batch is being stored.
- `size_t` wrap-around of `id_offset + index` in the bitset view and of `num_next` in range search.
- Iterator errors, cancellation and the thread pool around the range-search tasks.
- `filter_ratio`, `to_string` and other accessors of the bitset view, and the sum MaxSim without order, which would only add easy members.
- Inner-product, cosine, fp16, bf16 and int8 kernels, other instruction sets and the dispatch by processor features, which repeat the shapes proved here.
- The graph, inverted-file and sparse indexes behind the iterators; candidates are an arbitrary sequence.
