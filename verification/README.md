# Stillflow ingestion and control plane, in Dafny

This project models how Stillflow's tabular connectors read data and how three
stateful parts of its control plane behave, and proves what the fast, bounded or
concurrent form of each owes to the simple one.

- **JSON values** (`JsonTree`, `LogicalTypes`, `ScalarTypes`, `Validation`, `Temporal`).
  A value is a tree whose objects are member lists in which names may repeat, as section 4
  of RFC 8259 allows. There are two validators, one streaming with two ways to treat
  repeats and one over the collapsed value.
- **Projected rows** (`RowFrame`, `ProjectedRows`). The direct writer captures raw values and
  canonicalizes only when it must; the generic path builds every value. The two are
  compared on every row, schema and projection.
- **Schema inference** (`ObservedTypes`, `MergeLaws`, `Inference`,
  `SampleMeaning`, `InferredReads`). Types observed in rows are merged by a partial
  join, which is shown sound for the reader and exact about the sample.
- **Event subscriptions** (`EventStream`). Appends to a durable log, a pump, a
  bounded channel and a consumer, as interleaved steps.
- **Framing and repair** (`ArrayFraming`, `ArrayGrammar`, `ArrayReader`, `Delimited`).
  Streaming a JSON array, closing one that was cut off, and closing a cut delimited text.
- **Workbooks** (`Regions`, `OdsPreflight`, `OdsDocument`, `Headers`,
  `WorkbookHeaders`). Splitting a sheet into regions, bounding a run-length sheet
  without expanding it, and telling repeated headers apart.
- **Authorization, schedules, batches, pages, paths** (`Authorization`, `Schedule`,
  `Rechunking`, `Preview`, `Paging`, `FieldPaths`), with `Arithmetic`,
  `Concatenation`, `Numerals` and `Options` beneath them.

Code that the original writes as loops and updates in place is written so here (the
visitors, the row assembler, the field merges, the byte scans, the event loop of the
preflight, the reader, the cache) and proved against specification functions, about
which the theorems are stated. Automatic induction is switched off on every lemma:
where a proof is by induction, the call on the smaller argument is written.

Where code and comments disagree the model follows the code. The comments on the
direct writer describe it as equal to the generic path. Its recovery branch
re-encodes the parsed value without rewriting timestamps, so a list or struct that
the branch recovers and that still holds timestamp text is kept as text:
`ProjectedRows.StaleRowFamily` gives such rows and
`ProjectedRows.DirectDiffersExactly` the exact condition. Likewise a result page
bounds decoded bytes only as far as `Paging.DecodedFitsExactly` says.

What the model takes as given: the event store lists events after a cursor in
ascending order, numbered from 1; a refused identity change leaves the store as it
was; a resolved local time reads back as itself; of the raw objects that the array
reader frames, the syntax check accepts only well-nested ones; an empty fill means
the decoder is exhausted; the memory size of a batch is a function of its rows;
partition sequences increase; logical schemas have distinct field names.

## Model

| member | source | states |
|---|---|---|
| `JsonTree.CollapseTakesLast` | backend/crates/stillflow-connector-local-tabular/src/read.rs:1206-1217 | a collapsed object holds, under each name, the collapse of the last value given to that name |
| `JsonTree.CollapseKeepsFirstPositions` | backend/crates/stillflow-connector-local-tabular/src/read.rs:1206-1217 | and lists its names in the order of their first appearance, so a repeat replaces in place |
| `JsonTree.CollapseHasNoRepeats` | backend/crates/stillflow-connector-local-tabular/src/read.rs:1206-1217 | no object at any depth of a collapsed value repeats a name |
| `JsonTree.CollapseIdempotent` | backend/crates/stillflow-connector-local-tabular/src/read.rs:1206-1217 | collapsing twice is collapsing once |
| `LogicalTypes.NumberViewsAgree` | backend/crates/stillflow-connector-local-tabular/src/read.rs:1305-1347 | streaming numeric checks (i64, u64 and f64 callbacks) accept the same numbers as the DOM checks, for every type |
| `LogicalTypes.RejectIsFlagWithoutRepeats` | backend/crates/stillflow-connector-local-tabular/src/read.rs:1394-1429 | rejecting mode accepts what flagging mode accepts, less the values that repeat a name |
| `ScalarTypes.NumbersExact` | backend/crates/stillflow-connector-local-tabular/src/read.rs:1305-1347 | an integer type accepts exactly the integers of its width, a single exactly the numbers that do not round to infinity, a double every number |
| `ScalarTypes.ScalarsExact` | backend/crates/stillflow-connector-local-tabular/src/read.rs:1275-1375 | both validators accept a scalar exactly if it is of the type's own kind: by a number's value, a text's date or instants, and nulls where they may be |
| `Validation.RejectModeExact` | backend/crates/stillflow-connector-local-tabular/src/read.rs:1217-1429 | the streaming visitor in rejecting mode accepts if and only if no nested object repeats a name and the DOM validator accepts, for every type and tree |
| `Validation.FlagModeSound` | backend/crates/stillflow-connector-local-tabular/src/read.rs:1217-1429 | in flagging mode acceptance implies that the DOM validator accepts the last-wins collapse; the converse holds when no name repeats |
| `Validation.FlagModeExact` | backend/crates/stillflow-connector-local-tabular/src/read.rs:1217-1429 | the exact meaning of flagging mode: a readable tree is accepted if and only if the DOM validator accepts it under every way of choosing one occurrence per repeated name |
| `Validation.CollapseResolves` | backend/crates/stillflow-connector-local-tabular/src/read.rs:1206-1217 | the last-wins collapse is one of those choices |
| `Validation.VisitValue` | backend/crates/stillflow-connector-local-tabular/src/read.rs:1275-1392 | the visitor with its threaded flag: it accepts what the specification accepts, and the flag comes back raised exactly when it was raised or the accepted value repeats a name |
| `Validation.VisitItems` | backend/crates/stillflow-connector-local-tabular/src/read.rs:1377-1392 | the element loop of the visitor |
| `Validation.VisitMembers` | backend/crates/stillflow-connector-local-tabular/src/read.rs:1394-1429 | the member loop of the visitor, with its set of names seen and the check for required fields |
| `Temporal.NormalizeIsIdentity` | backend/crates/stillflow-connector-local-tabular/src/read.rs:1044-1082 | rewriting timestamps leaves a valid value unchanged if and only if it holds no timestamp |
| `Temporal.NoTimestampType` | backend/crates/stillflow-connector-local-tabular/src/direct_projected.rs:445-454 | a type without a timestamp component holds no timestamp in any value |
| `Temporal.NormalizeKeepsDistinct` | backend/crates/stillflow-connector-local-tabular/src/read.rs:1044-1082 | rewriting timestamps introduces no repeated name |
| `Temporal.NormalizeInPlace` | backend/crates/stillflow-connector-local-tabular/src/read.rs:1044-1082 | the rewriting recursion over lists and structs computes the specification, failures included |
| `Temporal.EpochIsFloor` | backend/crates/stillflow-connector-local-tabular/src/read.rs:1084-1115 | a text has a count if and only if it denotes an instant, the unit is finer than seconds and the count fits 64 bits; the count is then the number of whole units since 1970, rounded down also before it |
| `Temporal.NormalizeExact` | backend/crates/stillflow-connector-local-tabular/src/read.rs:1044-1082 | rewriting yields a value if and only if it is the given one with every timestamp text replaced by its count and all else, names and order included, kept; it fails exactly if there is no such value |
| `ProjectedRows.SlotAgainstCell` | backend/crates/stillflow-connector-local-tabular/src/direct_projected.rs:280-419 | for one selected value: the direct slot and the generic cell agree on acceptance and value, except for a stale slot, which is accepted and never equals the cell |
| `ProjectedRows.DirectAcceptsMore` | backend/crates/stillflow-connector-local-tabular/src/direct_projected.rs:159-380 | the direct writer never refuses a row the generic path accepts |
| `ProjectedRows.DirectMatchesGeneric` | backend/crates/stillflow-connector-local-tabular/src/direct_projected.rs:159-380 | without a stale member the two paths give the same ordered projected record, or both refuse |
| `ProjectedRows.DirectAcceptsExactly` | backend/crates/stillflow-connector-local-tabular/src/direct_projected.rs:159-380 | the direct writer accepts a row exactly if its names are in order, the required ones are present, and every selected value is accepted by the generic path or is stale, that is, recovered by the DOM while still holding timestamp text |
| `ProjectedRows.DirectDiffersExactly` | backend/crates/stillflow-connector-local-tabular/src/direct_projected.rs:346-371 | the two paths differ on a row if and only if a selected member is stale and the row is otherwise in order |
| `ProjectedRows.DirectMatchesWithoutTimestamps` | backend/crates/stillflow-connector-local-tabular/src/direct_projected.rs:159-380 | for selected types without a timestamp the two paths are the same function of the row, repeated nested names included |
| `ProjectedRows.DirectRowShape` | backend/crates/stillflow-connector-local-tabular/src/direct_projected.rs:159-233 | an assembled record has one value per projected name, and no object in it repeats a name |
| `ProjectedRows.StaleFamily` | backend/crates/stillflow-connector-local-tabular/src/direct_projected.rs:346-371 | a family of stale values: a number overwritten by timestamp text in a nested struct is accepted with its text kept, which the generic path never does |
| `ProjectedRows.StaleRowFamily` | backend/crates/stillflow-connector-local-tabular/src/direct_projected.rs:159-233 | whole rows on which the paths differ: the direct record holds the timestamp text |
| `RowFrame.RecordLists` | backend/crates/stillflow-connector-local-tabular/src/read.rs:1455-1478 | a record lists under each projected name the cell of the entry of that name, the absent value where there is none, and is the only such list |
| `ProjectedRows.GenericRowExact` | backend/crates/stillflow-connector-local-tabular/src/read.rs:1431-1478 | the generic path answers with a record if and only if member names are distinct and known, required fields are present, unselected members stream, and at each projected name stands the reading of the very member of that name, null if there is none |
| `ProjectedRows.DirectRowExact` | backend/crates/stillflow-connector-local-tabular/src/direct_projected.rs:159-233 | the same for the direct path, with its own reading of a value |
| `ProjectedRows.ReadCell` | backend/crates/stillflow-connector-local-tabular/src/read.rs:1169-1203 | the generic reading of one selected value: DOM, validation, normalization |
| `ProjectedRows.ParseProjectedObject` | backend/crates/stillflow-connector-local-tabular/src/read.rs:1431-1478 | the generic path's two passes (members into a map, names out of it) return a record exactly if the row projects to it, each value under its own name |
| `ProjectedRows.CaptureSlot` | backend/crates/stillflow-connector-local-tabular/src/direct_projected.rs:280-419 | the capture of one selected value: stream, canonicalize when needed, let the DOM decide for lists and structs |
| `ProjectedRows.ProjectedRowAssembler.constructor` | backend/crates/stillflow-connector-local-tabular/src/direct_projected.rs:129-154 | the slot index covers exactly the projected names |
| `ProjectedRows.ProjectedRowAssembler.FillSlots` | backend/crates/stillflow-connector-local-tabular/src/direct_projected.rs:280-380 | slots are cleared and filled from this row alone, each from the member of its own name, stopping at the first fault |
| `ProjectedRows.ProjectedRowAssembler.EncodeRow` | backend/crates/stillflow-connector-local-tabular/src/direct_projected.rs:159-233 | the direct writer returns a record exactly if the row projects to it, each value under its own name |
| `MergeLaws.MergeAssociative` | backend/crates/stillflow-connector-local-tabular/src/inference.rs:462-501 | merging types, with failure absorbing, is exactly associative, field order included |
| `MergeLaws.MergeCommutative` | backend/crates/stillflow-connector-local-tabular/src/inference.rs:462-501 | merging is commutative up to field order |
| `MergeLaws.MergeKinds` | backend/crates/stillflow-connector-local-tabular/src/inference.rs:462-478 | null is neutral, unlike kinds fail, and scalars of one kind merge to themselves or to a float |
| `MergeLaws.MergeRespectsShape` | backend/crates/stillflow-connector-local-tabular/src/inference.rs:462-501 | types that differ only in field order merge to types that differ only in field order |
| `MergeLaws.MergeProper` | backend/crates/stillflow-connector-local-tabular/src/inference.rs:480-501 | merging keeps field names distinct at every depth |
| `MergeLaws.StructMerge` | backend/crates/stillflow-connector-local-tabular/src/inference.rs:462-501 | merging structs is merging their field lists, also where equal types are returned as they are: merging a type with itself changes nothing |
| `ObservedTypes.MergeFieldsAt` | backend/crates/stillflow-connector-local-tabular/src/inference.rs:480-501 | a merged struct holds under each name the merge of what both sides hold there; a field of one side only is nullable |
| `ObservedTypes.MergeFieldsNames` | backend/crates/stillflow-connector-local-tabular/src/inference.rs:480-501 | its names are those of the left in order, then the new ones of the right in order |
| `MergeLaws.MergeType` | backend/crates/stillflow-connector-local-tabular/src/inference.rs:462-478 | the recursion over types computes the merge |
| `MergeLaws.MergeStruct` | backend/crates/stillflow-connector-local-tabular/src/inference.rs:480-501 | the loop that updates the left fields in place and takes partners out of the right computes the merge |
| `MergeLaws.AppendMissing` | backend/crates/stillflow-connector-local-tabular/src/inference.rs:496-500 | the leftover right fields are appended in order, nullable |
| `Inference.ObserveInParts` | backend/crates/stillflow-connector-local-tabular/src/inference.rs:361-390 | how the rows of a sample are grouped does not change the inferred type |
| `Inference.SampleOrderIrrelevant` | backend/crates/stillflow-connector-local-tabular/src/inference.rs:361-390 | any permutation of a sample infers the same type up to field order, or fails alike |
| `Inference.StructExplained` | backend/crates/stillflow-connector-local-tabular/src/inference.rs:361-390 | each field of an inferred struct is the merge of exactly the values under that name, and is nullable if and only if some object had null there or nothing |
| `Inference.ListExplained` | backend/crates/stillflow-connector-local-tabular/src/inference.rs:425-445 | the element type of an inferred list is the merge of all elements of all the arrays |
| `Inference.InferredAtPath` | backend/crates/stillflow-connector-local-tabular/src/inference.rs:425-501 | at every path through lists and structs the inferred type is the one inferred from the values reached along that path |
| `Inference.NullableIffMissingSomewhere` | backend/crates/stillflow-connector-local-tabular/src/inference.rs:480-501 | at every depth a field is nullable if and only if it was null or absent in some observed instance of its parent |
| `SampleMeaning.SampleMeans` | backend/crates/stillflow-connector-local-tabular/src/inference.rs:425-478 | the type of a sample by the classes of its values: all integers of the signed range, all of the unsigned range only, other numbers, all booleans, all text, all arrays, all objects, or nothing but nulls |
| `SampleMeaning.OneLevel` | backend/crates/stillflow-connector-local-tabular/src/inference.rs:425-501 | a sample has a type if and only if its values are of one class or all numbers, and its elements and the values under every name have one |
| `SampleMeaning.InferenceSucceedsExactly` | backend/crates/stillflow-connector-local-tabular/src/inference.rs:361-501 | inference succeeds if and only if at every path, through lists and structs, the values found are all of one class or all numbers |
| `SampleMeaning.FieldOrder` | backend/crates/stillflow-connector-local-tabular/src/inference.rs:480-501 | fields come in the order in which their names first appear in the sample |
| `InferredReads.MergeWidens` | backend/crates/stillflow-connector-local-tabular/src/inference.rs:462-501 | a merge accepts everything either side accepts, under the reader's DOM validator |
| `InferredReads.SampleAccepted` | backend/crates/stillflow-connector-local-tabular/src/inference.rs:425-550 | every sampled value is accepted by DOM validation under the type inferred from the sample |
| `InferredReads.SampledRowsRead` | backend/crates/stillflow-connector-local-tabular/src/inference.rs:361-406 | whenever inference succeeds, a sampled row reads under the inferred schema and a projection if and only if no name repeats at its top level or inside a value that is not projected; both row paths give the same record |
| `InferredReads.InferredSchemaWellFormed` | backend/crates/stillflow-connector-local-tabular/src/inference.rs:503-550 | an inferred schema has distinct field names at every depth |
| `InferredReads.ObserveValue` | backend/crates/stillflow-connector-local-tabular/src/inference.rs:425-460 | the recursion over a value computes the observed type, or fails as it does |
| `InferredReads.ObserveItems` | backend/crates/stillflow-connector-local-tabular/src/inference.rs:436-442 | the element loop |
| `InferredReads.ObserveMembers` | backend/crates/stillflow-connector-local-tabular/src/inference.rs:447-460 | the member loop over a collapsed object |
| `InferredReads.ObservedRecord.constructor` | backend/crates/stillflow-connector-local-tabular/src/inference.rs:329-342 | an empty record stands for the empty sample |
| `InferredReads.ObservedRecord.ObserveJson` | backend/crates/stillflow-connector-local-tabular/src/inference.rs:361-390 | taking in one object updates the fields in place to those of the enlarged sample, or fails if there is none |
| `InferredReads.MaterializedDescribes` | backend/crates/stillflow-connector-local-tabular/src/inference.rs:503-550 | the logical type describes the sampled values exactly: scalars by class, element types by all elements, fields by the values under each name, with nullability and order |
| `InferredReads.DescriptionUnique` | backend/crates/stillflow-connector-local-tabular/src/inference.rs:503-550 | no other type describes the same values |
| `InferredReads.DescribesAtPath` | backend/crates/stillflow-connector-local-tabular/src/inference.rs:503-550 | the description holds of the type and the values at every path |
| `InferredReads.ObserveRows` | backend/crates/stillflow-connector-local-tabular/src/inference.rs:264-285 | the sampling loop observes the first rows up to the row bound |
| `InferredReads.InferJson` | backend/crates/stillflow-connector-local-tabular/src/inference.rs:244-292 | there is a schema if and only if the sampled values mix at every path, and then it is the one that describes them: Int64 exactly for all signed integers, UInt64 for all unsigned-only ones, Float64 for other numbers, and so on down |
| `EventStream.AfterIsSuffix` | backend/crates/stillflow-storage/src/control_plane.rs:2805-2870 | with events numbered from 1 the events after a cursor are a suffix of the log |
| `EventStream.PageIsRun` | backend/crates/stillflow-storage/src/control_plane.rs:2805-2870 | a page is the run of the log right after its cursor, empty only at the end |
| `EventStream.StepKeepsInv` | backend/crates/stillflow-api/src/event_stream.rs:335-414 | every append, poll, send, close, receive and drop keeps the invariant: delivered, replayable, buffered and paged frames are consecutive runs |
| `EventStream.RunKeepsInv` | backend/crates/stillflow-api/src/event_stream.rs:225-414 | so does every interleaving, and the history only grows |
| `EventStream.DeliveryIsGapFree` | backend/crates/stillflow-api/src/event_stream.rs:225-414 | in every interleaving the frames received are a gap-free, duplicate-free, in-order run of the log after the starting cursor, and the cursor names the last of them |
| `EventStream.FaultSurfacesOnce` | backend/crates/stillflow-api/src/event_stream.rs:335-353 | in every run an abnormal stop of the pump surfaces at most once, after every buffered frame; nothing but ends follows |
| `EventStream.AbnormalStopSurfaces` | backend/crates/stillflow-api/src/event_stream.rs:335-414 | and it does surface: from any state with an unshown cause, one receive per buffered frame and one more deliver those frames and then exactly that cause |
| `EventStream.ResumeContinues` | backend/crates/stillflow-api/src/event_stream.rs:225-280 | subscribing again at the cursor, at any later time, continues with the very next event |
| `EventStream.NextEventReachable` | backend/crates/stillflow-api/src/event_stream.rs:362-414 | while the pump lives a poll, a send and a receive at most bring the next event |
| `EventStream.Subscription.constructor` | backend/crates/stillflow-api/src/event_stream.rs:225-280 | opening a subscription replays one page and starts the pump at its end |
| `EventStream.Subscription.NextEvent` | backend/crates/stillflow-api/src/event_stream.rs:335-353 | receiving pops the replay queue, then the channel, then the error slot, and moves the cursor |
| `EventStream.StopsAreExplained` | backend/crates/stillflow-api/src/event_stream.rs:362-414 | in every interleaving the recorded cause is the failure that struck the pump; a stopped pump has one unless the consumer went away; a stream that has ended has shown it, so no cut-off looks like a plain end |
| `EventStream.CauseIsWhatStruck` | backend/crates/stillflow-api/src/event_stream.rs:370-412 | storage failure exactly for an unanswered poll, bad frame for an event that cannot be framed, slow consumer for a framable event that meets a full channel |
| `EventStream.Subscription.PollPage` | backend/crates/stillflow-api/src/event_stream.rs:362-391 | one poll of the pump, with the failure it leaves in the error slot |
| `EventStream.Subscription.SendFrame` | backend/crates/stillflow-api/src/event_stream.rs:392-412 | one send of the pump, with the failure it leaves: bad frame, slow consumer at a full channel, or none |
| `ArrayFraming.ScanObject` | backend/crates/stillflow-connector-object-store/src/staged.rs:343-382 | scanning one well-nested object with separate brace and bracket counters adds exactly its bytes |
| `ArrayFraming.ScanCut` | backend/crates/stillflow-connector-object-store/src/staged.rs:343-382 | scanning a cut of a well-laid-out array finds exactly the objects wholly inside the cut |
| `ArrayFraming.StreamedLaid` | backend/crates/stillflow-connector-local-tabular/src/json_stream.rs:97-146 | what streaming yields lies in the document in order, with only space, commas and the closing bracket around it |
| `ArrayFraming.HeldStreams` | backend/crates/stillflow-connector-local-tabular/src/json_stream.rs:97-146 | an array that holds the objects one after the other streams back as those objects |
| `ArrayGrammar.DocumentStreamsExactly` | backend/crates/stillflow-connector-local-tabular/src/json_stream.rs:97-253 | a document streams as given objects if and only if it is an optional mark, blanks, an opening bracket, those objects with blanks and single commas between them, a closing bracket and blanks; a trailing comma is refused |
| `ArrayGrammar.StreamFromExact` | backend/crates/stillflow-connector-local-tabular/src/json_stream.rs:109-146 | the same for what is left of an array, after a comma or not |
| `ArrayGrammar.ReadsExactly` | backend/crates/stillflow-connector-local-tabular/src/json_stream.rs:201-244 | an object is framed and read if and only if it is valid, well nested, whatever its strings hold, and not over the byte bound |
| `ArrayFraming.ObjectEndLocal` | backend/crates/stillflow-connector-local-tabular/src/json_stream.rs:201-244 | where an object ends depends on its own bytes only |
| `ArrayFraming.RepairKeeps` | backend/crates/stillflow-connector-object-store/src/staged.rs:323-410 | what the repair of a cut is, in terms of the objects laid out in the document |
| `ArrayFraming.RepairedCutStreams` | backend/crates/stillflow-connector-object-store/src/staged.rs:323-410 | for every streamable array and every cut, repairing and streaming the cut yields byte for byte the first k raw objects of the document, k being the number wholly inside the cut; the repair refuses exactly when k is 0 |
| `ArrayReader.ScanPrefix` | backend/crates/stillflow-connector-object-store/src/staged.rs:343-382 | the byte loop over string state, two depths and the start of the object computes the scan |
| `ArrayReader.WriteArray` | backend/crates/stillflow-connector-object-store/src/staged.rs:400-409 | the objects written back between brackets, separated by commas |
| `ArrayReader.CloseJsonArrayPrefix` | backend/crates/stillflow-connector-object-store/src/staged.rs:323-410 | the whole repair, with its refusals |
| `ArrayReader.JsonObjectStream.ReadBalancedObject` | backend/crates/stillflow-connector-local-tabular/src/json_stream.rs:201-244 | the balanced-object loop stops just past the matching bracket or refuses |
| `ArrayReader.JsonObjectStream.NextElement` | backend/crates/stillflow-connector-local-tabular/src/json_stream.rs:109-146 | one array element, its separator, and the end of the array |
| `ArrayReader.JsonObjectStream.NextRawObject` | backend/crates/stillflow-connector-local-tabular/src/json_stream.rs:61-146 | each call hands out the first of the remaining objects and leaves the rest; a fault is reported only in a malformed document |
| `ArrayReader.JsonObjectStream.FinishArray` | backend/crates/stillflow-connector-local-tabular/src/json_stream.rs:246-253 | nothing but space may follow the closing bracket |
| `ArrayReader.ReadAll` | backend/crates/stillflow-connector-local-tabular/src/json_stream.rs:61-146 | draining the stream gives the raw objects of the document, or refuses |
| `Delimited.CloseDelimitedPrefix` | backend/crates/stillflow-connector-object-store/src/staged.rs:298-321 | the scan that steps over doubled quotes returns the longest prefix ending in a newline preceded by an even number of quotes, and refuses when there is none |
| `Delimited.CutAgrees` | backend/crates/stillflow-connector-object-store/src/staged.rs:298-321 | a cut has the quote parity, the record boundaries and the records of the full text up to the cut |
| `Delimited.RecordsCover` | backend/crates/stillflow-connector-object-store/src/staged.rs:298-321 | whole records are the text up to the last boundary, nothing lost |
| `Delimited.ClosedCutRecords` | backend/crates/stillflow-connector-object-store/src/staged.rs:298-321 | closing a cut keeps exactly the records of the full text that end inside it, and closing again changes nothing |
| `Regions.TrueBands` | backend/crates/stillflow-connector-workbook/src/analysis.rs:199-216 | the bands are the maximal runs of populated positions, in order |
| `Regions.TrimRegion` | backend/crates/stillflow-connector-workbook/src/analysis.rs:218-277 | the running minima, maxima and count are the exact bounding box and number of the populated cells of the area |
| `Regions.RegionsInBand` | backend/crates/stillflow-connector-workbook/src/analysis.rs:164-189 | the column bands of a row band split its cells into non-empty areas separated by empty columns |
| `Regions.CountsAddUp` | backend/crates/stillflow-connector-workbook/src/analysis.rs:218-277 | the counts of areas that share no position add up to the cells they hold |
| `Regions.FoundPartition` | backend/crates/stillflow-connector-workbook/src/analysis.rs:132-277 | trimming keeps the split: the boxes share no position and leave no cell out |
| `Regions.NoOtherArea` | backend/crates/stillflow-connector-workbook/src/analysis.rs:132-197 | maximal row bands cut into maximal column bands are determined by the cells: an area of that kind is among those found |
| `Regions.PartitionReports` | backend/crates/stillflow-connector-workbook/src/analysis.rs:250-275 | moved to its place in the sheet the partition is one of the sheet's own cells |
| `Regions.FindRegions` | backend/crates/stillflow-connector-workbook/src/analysis.rs:132-277 | before ordering and capping, in sheet coordinates: every populated cell of the window is in exactly one returned range, each range is the exact bounding box of its own cells and counts them, ranges are disjoint and separated by an empty row or column, the counts sum to the total; there is one region for each area, that is each maximal band of populated columns in a maximal band of populated rows; a sheet is refused if and only if the cells of some area cannot be counted in 64 bits or their box cannot be placed in 32-bit coordinates with a 64-bit size |
| `OdsPreflight.RowBoundsExact` | backend/crates/stillflow-connector-workbook/src/preflight.rs:270-293 | cell runs are accepted exactly when the written-out row fits, and the running bounds are those of the written-out row |
| `OdsPreflight.FinishRowExact` | backend/crates/stillflow-connector-workbook/src/preflight.rs:205-267 | a row run is accepted exactly when the longer written-out grid fits, and the running box is that grid's bounding box |
| `OdsPreflight.SheetBoundsExact` | backend/crates/stillflow-connector-workbook/src/preflight.rs:205-293 | a sheet is accepted if and only if all repeats are positive, rows and columns stay within 1,048,576 and 16,384, and the bounding box of the materialized cells of the written-out grid has at most the allowed area |
| `OdsDocument.DocumentExact` | backend/crates/stillflow-connector-workbook/src/preflight.rs:114-202 | a well-nested stream is accepted exactly when every sheet fits; the names reported are those of sheets with drawings and no materialized cell |
| `OdsDocument.OdsRowBounds.PushCell` | backend/crates/stillflow-connector-workbook/src/preflight.rs:270-293 | the in-place update of the row bounds; no sum leaves the 64-bit range unnoticed |
| `OdsDocument.OdsSheetBounds.FinishRow` | backend/crates/stillflow-connector-workbook/src/preflight.rs:205-267 | the in-place update of the sheet bounds; no difference or product leaves the 64-bit range |
| `OdsDocument.HandleEvent` | backend/crates/stillflow-connector-workbook/src/preflight.rs:126-200 | one turn of the event loop |
| `OdsDocument.ValidateOdsRepeats` | backend/crates/stillflow-connector-workbook/src/preflight.rs:114-202 | the event loop computes the specified verdict for every event stream |
| `WorkbookHeaders.RegionColumnNames` | backend/crates/stillflow-connector-workbook/src/schema.rs:182-225 | for every header row the columns get pairwise distinct names, each the first free form of its own text |
| `Headers.NextName` | backend/crates/stillflow-connector-workbook/src/schema.rs:206-221 | the suffix search ends within one more step than there are names in use |
| `Headers.ColumnNames` | backend/crates/stillflow-connector-workbook/src/schema.rs:182-225 | the suffix map and the set of used names give each column the first form no earlier column has |
| `Authorization.AuthorizeExact` | backend/crates/stillflow-api/src/authorization.rs:163-213 | with a coherent cache the cached answer is the uncached one and the cache stays coherent |
| `Authorization.DecideExact` | backend/crates/stillflow-api/src/authorization.rs:163-260 | who is allowed what, on the store alone: callers without a principal exactly in local mode, service accounts never, members exactly if workspace and member are active, every role granted there is known, and one of them holds the capability or workspace:admin |
| `Authorization.LoadExact` | backend/crates/stillflow-api/src/authorization.rs:225-260 | what is loaded: exactly the capabilities of a member's roles, nothing for a service account, and a failure exactly for the unknown or inactive |
| `Authorization.ChangeDecides` | backend/crates/stillflow-api/src/service.rs:1529-1704 | what each identity change does to every member's decisions in its workspace: revocation and creation leave nothing, an assigned role adds exactly what it holds, new role capabilities replace exactly that role's share |
| `Authorization.RunKeepsSound` | backend/crates/stillflow-api/src/service.rs:1529-1704 | over every run grants name members and roles of their own workspace |
| `Authorization.ChangesAreAuthorized` | backend/crates/stillflow-api/src/service.rs:1514-1704 | no request changes the store without the capabilities it needs |
| `Authorization.ApplyLocal` | backend/crates/stillflow-api/src/service.rs:1529-1704 | an identity change in one workspace leaves what is loaded in the others alone |
| `Authorization.StepTransparent` | backend/crates/stillflow-api/src/service.rs:1514-1704 | every request keeps the cache coherent and answers as without a cache |
| `Authorization.RunTransparent` | backend/crates/stillflow-api/src/authorization.rs:163-260 | over every run of atomic requests each cached entry equals a fresh load and every response equals the uncached one |
| `Authorization.StepIsolated` | backend/crates/stillflow-api/src/service.rs:1514-1704 | a request in one workspace never changes a decision in another |
| `Authorization.RevocationHolds` | backend/crates/stillflow-api/src/service.rs:1564-1581 | after an answered revocation no later request of that principal is allowed, whatever was cached and whatever happens in between |
| `Authorization.ArchivalHolds` | backend/crates/stillflow-api/src/service.rs:1514-1527 | after an answered archival no principal is allowed anything in the workspace, though the cache is not cleared |
| `Authorization.Service.LoadCapabilities` | backend/crates/stillflow-api/src/authorization.rs:225-260 | the role loop returns exactly the capabilities that the member's roles hold, nothing for a service account, and fails exactly if the member is unknown or inactive or a role is unknown |
| `Authorization.Service.CheckCapability` | backend/crates/stillflow-api/src/authorization.rs:163-213 | authorize: workspace state, cached or fresh capabilities, admin |
| `Authorization.Service.InvalidateWorkspace` | backend/crates/stillflow-api/src/authorization.rs:215-219 | an entry is kept if and only if it belongs to another workspace, with the capabilities it had; what is loaded in the other workspaces stays coherent |
| `Authorization.Service.Handle` | backend/crates/stillflow-api/src/service.rs:1514-1704 | each API call is one step of the cached run |
| `Schedule.SearchExact` | backend/crates/stillflow-core/src/automation.rs:112-146 | the search finds the first eligible date within 370 days and the calendar, and says which limit it ran into otherwise |
| `Schedule.SearchDailyFrom` | backend/crates/stillflow-core/src/automation.rs:112-146 | the bounded loop is the search |
| `Schedule.NextAfterDaily` | backend/crates/stillflow-core/src/automation.rs:88-146 | the next occurrence is strictly later, on a later local date; the clock then shows the scheduled hour, minute and second, and of two such instants it is the earlier; every date passed over has no such time or one before the bound |
| `Schedule.FirstIsIdempotent` | backend/crates/stillflow-core/src/automation.rs:67-82 | the first occurrence at or after a start is its own first occurrence |
| `Schedule.RunIncreases` | backend/crates/stillflow-core/src/automation.rs:88-110 | over a whole run instants strictly increase: interval ones by the period each, daily ones on strictly increasing dates at the scheduled hour, minute and second |
| `Schedule.RunMissesNothing` | backend/crates/stillflow-core/src/automation.rs:88-110 | over a whole run no date is left out without reason |
| `Rechunking.CutShape` | backend/crates/stillflow-connector-local-tabular/src/read.rs:589-626 | cutting rows to size loses nothing; every piece but the last is full and none is empty |
| `Rechunking.PreparedReader.NextOutputFrame` | backend/crates/stillflow-connector-local-tabular/src/read.rs:589-626 | the frame loop collects the next rows up to the batch size and the row quota, whatever the frame heights |
| `Rechunking.PreparedReader.NextEnvelope` | backend/crates/stillflow-connector-local-tabular/src/read.rs:547-587 | envelopes take the next sequence number and count their rows |
| `Rechunking.ReadAll` | backend/crates/stillflow-connector-local-tabular/src/read.rs:547-626 | the envelopes of a whole read are the first max_rows decoded rows cut to the batch size and numbered from 0 |
| `Preview.LargestFittingPrefix` | backend/crates/stillflow-connector-local-tabular/src/preview.rs:115-131 | the binary search stops where one more row would not fit |
| `Preview.FitIsLargest` | backend/crates/stillflow-connector-local-tabular/src/preview.rs:115-131 | with monotone sizes that is the largest prefix that fits |
| `Preview.AddBatch` | backend/crates/stillflow-connector-local-tabular/src/preview.rs:51-101 | one batch of the preview loop keeps it on course, and gives the early error exactly for a stop at a row that never fits |
| `Preview.PreviewAsset` | backend/crates/stillflow-connector-local-tabular/src/preview.rs:17-113 | batches concatenate to the first rows_returned source rows within both limits; rows_truncated if and only if the source is longer than the limit; bytes_truncated if and only if fewer rows than asked for came back, and then one more row would not have fit; the preview is refused if and only if the row it stops at is too large on its own, and otherwise returns the rows before that one |
| `Paging.PageTakes` | backend/crates/stillflow-api/src/service.rs:3986-4046 | a page takes at least one partition if the first one due fits, never more rows than asked for, and stops only where the next one would not fit |
| `Paging.ReadPage` | backend/crates/stillflow-api/src/service.rs:3986-4046 | the partition loop returns that page and the cursor to go on from, and fails if and only if the first partition due exceeds the bounds by itself |
| `Paging.DecodedFitsExactly` | backend/crates/stillflow-api/src/service.rs:3986-4046 | the code compares stored sizes while it adds decoded ones: pages keep the byte bound on decoded batches for every cursor and bounds if and only if no batch decodes to more than its stored size |
| `Paging.FollowPages` | backend/crates/stillflow-api/src/service.rs:3986-4046 | following the cursor from the start visits every partition exactly once in order and ends |
| `FieldPaths.PathInjective` | backend/crates/stillflow-connector-local-tabular/src/schema.rs:224-226 | the length-prefixed path encoding is injective over chains of position and name, whatever the names contain |
| `FieldPaths.RowPathsDistinct` | backend/crates/stillflow-connector-local-tabular/src/inference.rs:503-550 | no two fields of an inferred schema, through lists and structs, share a path |

## Left out

- The storage engine, the job runtime and the plan compiler; only the contracts above are used of them.
- Polars, Arrow, Parquet, calamine, zip and XML parsing: rows, cells, events and batch sizes stand for what they deliver.
- Error categories and messages: paths are compared on acceptance and meaning, and a semantic error followed by an out-of-range number is classified differently by the two row paths.
- serde_json's recursion limit, number syntax and float rounding: a number is its 64-bit integer views and a real value, with a token for what cannot be read.
- Undecodable member names: they make a row unreadable on both paths and are not given a name in the model.
- Parsing of date and time text: a text comes with the instants it denotes, if any.
- Delimited value inference and the NDJSON line framing: their rules are a table and a split at newlines.
- Directory walking, S3 access, credentials, timeouts, cancellation and temporary files.
- Races inside one authorize call and several gates over one store: requests are atomic and pass through one gate.
- Ordering, removing equal ranges and capping of region candidates: the ranges found are distinct, so removing equal ones changes nothing.
- Region confidence and header candidates: scores over single cells.
- Interval arithmetic of schedules beyond `NextAfter`'s overflow check, and the list of time zone names.
- Capability names, DTO views, telemetry, configuration ranges and version negotiation.
- Logical schema budgets: limits on total fields and text are not checked here.
- `sha1` in version-5 identifiers: distinct paths are shown, not distinct hashes.
- EventStream.NextEventReachable: shows that the next event can be brought in three steps, not that a scheduler takes them.
- EventStream.AbnormalStopSurfaces: likewise shows steps that bring the fault, not that they are taken.
