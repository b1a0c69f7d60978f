# ModeShape core, modelled in Dafny

This project models six pieces of ModeShape, a JCR (JSR 283) content repository, and proves properties of them:

- **Child references** (`ImmutableChildReferences`). This is the read-only index of a node's children. It answers lookups by name plus same-name-sibling (SNS) index, lookups by node key, child counts and key enumeration, with or without an overlay of unsaved changes. It comes in four variants:
  - the empty instance;
  - a `Medium` segment: one block materialised into a by-name multimap and a by-key map;
  - a `Segmented` chain of blocks, loaded lazily and memoised by `Segment.next`;
  - a `ReferencesUnion` of two sides.

  The `union` / `create` factories choose among them.
- **Page keys** (`PageKey`). These are the `parentId#offset#blockSize` keys of federated child pages, with a parser, printer, validator, `getOffsetInt` and `withParentId`.
- **The observation listener adapter** (`JcrObservationManager.JcrListenerAdapter`) and the `JcrRangeIterator` behind its event iterators. The adapter screens a change set, filters each node change and expands it into the ordered JCR events its listener receives.
- **The backup observer** (`BackupObserver`). It queues changed nodes and tracks binary values that became used or unused during a backup.
- **The CMIS type-name relations** (`Nodes`) of the CMIS connector.
- **Three pure parts of `CmisGetObjectOperation`**: the custom-property filter, the property map built by `processProperties`, and the rule that gives a document its parent ids.

Files and modules:

| file | module | models |
|---|---|---|
| common.dfy | Common | `Option` for nullable references, and the `java.lang` string and number behaviours the code relies on: `split` on one character, `trim`, blank test, `parseLong` / `parseInt`, decimal printing |
| child_ref_types.dfy | ChildRefs | child references, lookup failures, the `Changes` overlay and the `Context` with its `consume` counters |
| medium.dfy | Mediums | `Medium`: its constructor and its name and key lookups |
| child_references.dfy | ChildReferences | the four variants as one datatype, their queries, and the factories |
| segment_chain.dfy | SegmentChains | the memoised `Segment.next` chain as an explicit state |
| page_key.dfy | PageKeys | `PageKey` |
| range_iterator.dfy | RangeIterators | `JcrRangeIterator` |
| observation.dfy | Observation | `JcrListenerAdapter` |
| backup_observer.dfy | Backup | `BackupObserver` |
| cmis_nodes.dfy | CmisNodes | `Nodes` |
| cmis_get_object.dfy | CmisGetObject | the property filter, `processProperties`, the parent rule |

Java `null` is `Option.None`. An exception is the `Fail` / `Err` / `Raise` case of a result datatype. Mutable state (the memoised segment chain, the observer's key sets, the relation list, the iterator position) is an immutable value that each operation returns updated. The collaborators below are parameters, written as fields of a datatype or function values:

- the document store's answers;
- the session's permission check, node-type lookup and `isDerivedFrom`;
- the overlay's view iterator;
- the CMIS type mapping and id encoder.

Several parts of the model are partnered with reference definitions, and lemmas show they agree:

- `Flat` lists the segments in lookup order. `FirstDeepEnough` and `FirstStoring` give the plain answers over that list.
- `Numbered`, `Named` and `LastName` describe what the `Medium` constructor should build.
- `FilterByMask` says that the event-type mask only filters events.
- `Saturate` is a counter kept within -1..1.
- `SurvivorNames`, `AddNew` and `LastValue` describe the property map.
- The stateless `WalkFrom` is the reference for the memoised chain.

Three behaviours of the code are worth knowing, because a reader might expect otherwise:

- **SNS numbering is per segment.** Same-name siblings are numbered within each `Medium` segment, and a segmented index asks each segment in turn with the index it was given (`modeshape-jcr/src/main/java/org/modeshape/jcr/cache/document/ImmutableChildReferences.java:497-517`). With one `a` child in each of two blocks, `getChildCount(a)` is 2 but `getChild(a, 2)` is null. See `ChildReferences.SnsNumberingIsPerSegment`.
- **A repeated key is compared with its current entry.** The `Medium` constructor skips a reference only when the key's *current* by-key entry has the same name (`modeshape-jcr/src/main/java/org/modeshape/jcr/cache/document/ImmutableChildReferences.java:225-238`). So `(k, A), (k, B), (k, A)` keeps all three entries in the name index. See `Mediums.RepeatIsDropped` and `Mediums.NewEntryIsNumbered`.
- **A union's keys are not deduplicated.** `ReferencesUnion.getAllKeys` enumerates a key both sides hold twice (`modeshape-jcr/src/main/java/org/modeshape/jcr/cache/document/ImmutableChildReferences.java:795-801`). See `ChildReferences.UnionKeysKeepShared`.

## Model

| member | source | states |
|---|---|---|
| Common.SplitAll | modeshape-jcr/src/main/java/org/modeshape/jcr/federation/spi/PageKey.java:49-53 | the pieces between separators: at least one piece, none containing the separator |
| Common.DropTrailingEmpty | modeshape-jcr/src/main/java/org/modeshape/jcr/federation/spi/PageKey.java:49-53 | `split` with limit 0 drops exactly the empty pieces at the end, keeping a prefix |
| Common.SplitJoin | modeshape-jcr/src/main/java/org/modeshape/jcr/federation/spi/PageKey.java:158-165 | splitting the join of separator-free fields gives the fields back |
| Common.JoinSplit | modeshape-jcr/src/main/java/org/modeshape/jcr/federation/spi/PageKey.java:49-53 | joining the pieces of a split gives the string back |
| Common.ParseInteger | modeshape-jcr/src/main/java/org/modeshape/jcr/federation/spi/PageKey.java:56-60 | `parseLong` / `parseInt` succeed only with a value inside the type's range |
| Common.ParseDecimalString | modeshape-jcr/src/main/java/org/modeshape/jcr/federation/spi/PageKey.java:115-121 | parsing the decimal rendering of any in-range number gives that number |
| Common.ParseRejectsNonNumeric | modeshape-jcr/src/main/java/org/modeshape/jcr/federation/spi/PageKey.java:115-121 | a string holding a char other than a digit or sign raises NumberFormatException (None) |
| Common.DigitsValueOfNatDigits | modeshape-jcr/src/main/java/org/modeshape/jcr/federation/spi/PageKey.java:158-165 | reading back the printed digits of a natural number gives the number |
| PageKeys.Parse | modeshape-jcr/src/main/java/org/modeshape/jcr/federation/spi/PageKey.java:49-61 | the string constructor accepts exactly three parts with a long block size; any other part count is MalformedKey; the kept parent and offset hold no `#` |
| PageKeys.SplitToString | modeshape-jcr/src/main/java/org/modeshape/jcr/federation/spi/PageKey.java:158-165 | the printed key splits on `#` into exactly its parent, offset and block size |
| PageKeys.RoundTrip | modeshape-jcr/src/main/java/org/modeshape/jcr/federation/spi/PageKey.java:49-76 | printing then parsing a key whose parent and offset hold no `#` gives the same key back |
| PageKeys.ParsePrintParse | modeshape-jcr/src/main/java/org/modeshape/jcr/federation/spi/PageKey.java:49-61 | parse, print, parse is the first parse: the parser's output is a normal form |
| PageKeys.WrongPartCountRejected | modeshape-jcr/src/main/java/org/modeshape/jcr/federation/spi/PageKey.java:49-53 | a string whose split does not give three parts is rejected as malformed |
| PageKeys.BadBlockSizeRejected | modeshape-jcr/src/main/java/org/modeshape/jcr/federation/spi/PageKey.java:56-60 | three parts whose third is not a long are rejected with the block-size error |
| PageKeys.ValidFormatIffParses | modeshape-jcr/src/main/java/org/modeshape/jcr/federation/spi/PageKey.java:137-156 | `isValidFormat` holds iff the string constructor accepts and the offset reads as an int |
| PageKeys.BlankIsNotValid | modeshape-jcr/src/main/java/org/modeshape/jcr/federation/spi/PageKey.java:137-140 | null or blank strings are never valid |
| PageKeys.OffsetIntOfNumber | modeshape-jcr/src/main/java/org/modeshape/jcr/federation/spi/PageKey.java:115-121 | an offset printed from an int reads back as that int |
| PageKeys.OffsetIntOfCursor | modeshape-jcr/src/main/java/org/modeshape/jcr/federation/spi/PageKey.java:115-121 | an offset holding a non-numeric char reads as null |
| PageKeys.WithParentId | modeshape-jcr/src/main/java/org/modeshape/jcr/federation/spi/PageKey.java:84-89 | `withParentId` fails exactly for a blank id, else sets that parent |
| PageKeys.WithParentIdRoundTrip | modeshape-jcr/src/main/java/org/modeshape/jcr/federation/spi/PageKey.java:84-89 | re-parenting keeps offset and block size and survives print-then-parse |
| ChildRefs.Consume | modeshape-jcr/src/main/java/org/modeshape/jcr/cache/document/ImmutableChildReferences.java:286-294 | `consume` hands out the next index for a name (one past the count so far) and leaves other names alone |
| ChildRefs.Flatten | modeshape-jcr/src/main/java/org/modeshape/jcr/cache/document/ImmutableChildReferences.java:286-290 | the insertion batches visited in order: every reference of every batch, nothing else, as many as the batches hold |
| Mediums.Add | modeshape-jcr/src/main/java/org/modeshape/jcr/cache/document/ImmutableChildReferences.java:223-239 | one constructor step indexes the key under the new reference's name and adds no other key |
| Mediums.Translated | modeshape-jcr/src/main/java/org/modeshape/jcr/cache/document/ImmutableChildReferences.java:215-222 | the references kept by the first loop are exactly the non-null translations |
| Mediums.TranslatedAppend | modeshape-jcr/src/main/java/org/modeshape/jcr/cache/document/ImmutableChildReferences.java:215-222 | the first loop keeps document order and multiplicity: two runs of values translate to the two runs of references, one after the other |
| Mediums.TranslatedOne | modeshape-jcr/src/main/java/org/modeshape/jcr/cache/document/ImmutableChildReferences.java:217-221 | a null translation contributes nothing, any other its reference once |
| Mediums.AddValid | modeshape-jcr/src/main/java/org/modeshape/jcr/cache/document/ImmutableChildReferences.java:223-239 | a constructor step keeps the index well built: groups numbered 1.., by-key entries at their own place |
| Mediums.BuildValid | modeshape-jcr/src/main/java/org/modeshape/jcr/cache/document/ImmutableChildReferences.java:207-240 | the constructor always yields a well-built index |
| Mediums.BuildLatestName | modeshape-jcr/src/main/java/org/modeshape/jcr/cache/document/ImmutableChildReferences.java:223-239 | the by-key map holds every key of the document, under the name it last carried |
| Mediums.RepeatIsDropped | modeshape-jcr/src/main/java/org/modeshape/jcr/cache/document/ImmutableChildReferences.java:225-229 | a reference whose key's current entry has the same name leaves the index unchanged |
| Mediums.NewEntryIsNumbered | modeshape-jcr/src/main/java/org/modeshape/jcr/cache/document/ImmutableChildReferences.java:230-238 | any other reference is appended to its name group with the next SNS index, becomes its key's entry, and other groups do not change |
| Mediums.DistinctKeysGroups | modeshape-jcr/src/main/java/org/modeshape/jcr/cache/document/ImmutableChildReferences.java:223-239 | with no repeated key each name group is exactly that name's entries in document order, numbered 1, 2, 3, ... |
| Mediums.DistinctKeysSize | modeshape-jcr/src/main/java/org/modeshape/jcr/cache/document/ImmutableChildReferences.java:243-245 | with no repeated key `size()` is the number of entries |
| Mediums.SizeIsDistinctKeys | modeshape-jcr/src/main/java/org/modeshape/jcr/cache/document/ImmutableChildReferences.java:243-245 | `size()` is the number of distinct keys in the document |
| Mediums.EmptyOnlyWhenNoReferences | modeshape-jcr/src/main/java/org/modeshape/jcr/cache/document/ImmutableChildReferences.java:207-245 | size 0 happens iff the document yields no reference |
| Mediums.SnsDensity | modeshape-jcr/src/main/java/org/modeshape/jcr/cache/document/ImmutableChildReferences.java:253-276 | without changes, index s in 1..count finds the s-th child of the name carrying index s; any index above the count finds null; an index below 1 throws, also for a name with no children |
| Mediums.KeyAndNameAgree | modeshape-jcr/src/main/java/org/modeshape/jcr/cache/document/ImmutableChildReferences.java:253-276 | without changes, the key lookup returns the by-key entry, and the name lookup finds it under its own name and index |
| Mediums.HasChildIffFound | modeshape-jcr/src/main/java/org/modeshape/jcr/cache/document/ImmutableChildReferences.java:388-396 | `hasChild(key)` holds iff the context-free key lookup finds a reference |
| Mediums.ChangesKeepStoredNumbering | modeshape-jcr/src/main/java/org/modeshape/jcr/cache/document/ImmutableChildReferences.java:279-320 | with changes but no insertions or renames for the name, index s finds the s-th stored child unless removed or renamed; nothing is renumbered |
| Mediums.VisibleScanNumbered | modeshape-jcr/src/main/java/org/modeshape/jcr/cache/document/ImmutableChildReferences.java:312-320 | the visible scan over a numbered group finds the reference at position s, or null when it is hidden |
| Mediums.ScanInsertedSameName | modeshape-jcr/src/main/java/org/modeshape/jcr/cache/document/ImmutableChildReferences.java:286-297 | inserted references are numbered on from the context's counter, and a failed scan advances it by their number |
| Mediums.InsertedOnlyNumbering | modeshape-jcr/src/main/java/org/modeshape/jcr/cache/document/ImmutableChildReferences.java:279-297 | a name with only inserted children finds the (s - consumed)-th insertion, re-indexed s |
| Mediums.GetChildByName | modeshape-jcr/src/main/java/org/modeshape/jcr/cache/document/ImmutableChildReferences.java:253-322 | only the no-changes lookup with index below 1 throws; any answer found with changes carries the asked index; the context keeps its changes |
| Mediums.GetChildByKey | modeshape-jcr/src/main/java/org/modeshape/jcr/cache/document/ImmutableChildReferences.java:325-385 | the key lookup never throws, and finds only stored or inserted keys |
| Mediums.RemovedChildHidden | modeshape-jcr/src/main/java/org/modeshape/jcr/cache/document/ImmutableChildReferences.java:349-384 | a removed, unrenamed stored child with no insertions under its name is hidden; an unremoved one comes back as stored |
| Mediums.ViewBeatsRemoval | modeshape-jcr/src/main/java/org/modeshape/jcr/cache/document/ImmutableChildReferences.java:349-376 | when the overlay's view lists the key, its reference is returned even for a removed child |
| Mediums.RenamedChildFallback | modeshape-jcr/src/main/java/org/modeshape/jcr/cache/document/ImmutableChildReferences.java:353-370 | a renamed child not in the view comes back under its new name with index 1, unless removed |
| Mediums.InsertedKeyLookup | modeshape-jcr/src/main/java/org/modeshape/jcr/cache/document/ImmutableChildReferences.java:327-347 | an inserted key not stored here is looked up in its name's view, else the inserted reference is returned |
| ChildReferences.UnionOf | modeshape-jcr/src/main/java/org/modeshape/jcr/cache/document/ImmutableChildReferences.java:63-74 | `union` gives the empty instance when both sizes are 0, the other side when one size is 0, and a union of both otherwise; its size is the sum | 
| ChildReferences.Create | modeshape-jcr/src/main/java/org/modeshape/jcr/cache/document/ImmutableChildReferences.java:76-82 | `create` returns its first argument exactly when no segmenting info or no next key is given; otherwise a segmented index with this node key, the info's next key and total size, and the first argument as first segment |
| ChildReferences.CreateWithSecondIsUnion | modeshape-jcr/src/main/java/org/modeshape/jcr/cache/document/ImmutableChildReferences.java:84-92 | the five-argument factory is `union` of the four-argument one with the second side |
| ChildReferences.CreateWithoutNextIsFirst | modeshape-jcr/src/main/java/org/modeshape/jcr/cache/document/ImmutableChildReferences.java:76-82 | without segmenting info or next key, the factory returns its first argument |
| ChildReferences.UnionShortcutCounts | modeshape-jcr/src/main/java/org/modeshape/jcr/cache/document/ImmutableChildReferences.java:63-74 | dropping an empty side in `union` changes no size, count or `hasChild` answer |
| ChildReferences.UnionShortcutByName | modeshape-jcr/src/main/java/org/modeshape/jcr/cache/document/ImmutableChildReferences.java:63-74 | dropping an empty side changes no name lookup |
| ChildReferences.UnionShortcutByKey | modeshape-jcr/src/main/java/org/modeshape/jcr/cache/document/ImmutableChildReferences.java:63-74 | dropping an empty side changes no key lookup |
| ChildReferences.HasChildMatchesFlat | modeshape-jcr/src/main/java/org/modeshape/jcr/cache/document/ImmutableChildReferences.java:394-396 | with every block present and sizes known, `hasChild` holds iff some segment in lookup order stores the key, across segments and unions |
| ChildReferences.ChildCountMatchesFlat | modeshape-jcr/src/main/java/org/modeshape/jcr/cache/document/ImmutableChildReferences.java:477-494 | `getChildCount` is the sum of all segments' counts (unions add their sides) |
| ChildReferences.GetChildByNameMatchesFlat | modeshape-jcr/src/main/java/org/modeshape/jcr/cache/document/ImmutableChildReferences.java:497-517 | without changes, the name lookup answers from the first segment in lookup order with at least s children of the name; the first side of a union wins |
| ChildReferences.GetChildByKeyMatchesFlat | modeshape-jcr/src/main/java/org/modeshape/jcr/cache/document/ImmutableChildReferences.java:537-556 | without changes, the key lookup returns the first storing segment's entry |
| ChildReferences.AllKeysMatchesFlat | modeshape-jcr/src/main/java/org/modeshape/jcr/cache/document/ImmutableChildReferences.java:662-706 | without unions, `getAllKeys` enumerates every segment's keys |
| ChildReferences.UnionKeysKeepShared | modeshape-jcr/src/main/java/org/modeshape/jcr/cache/document/ImmutableChildReferences.java:795-801 | a key both sides of a union hold is enumerated twice |
| ChildReferences.MissingBlockFails | modeshape-jcr/src/main/java/org/modeshape/jcr/cache/document/ImmutableChildReferences.java:520-529 | a key stored nowhere before a missing block makes `hasChild` throw DocumentNotFound for that block |
| ChildReferences.UnknownSizeAsksStoreFirst | modeshape-jcr/src/main/java/org/modeshape/jcr/cache/document/ImmutableChildReferences.java:477-556 | a parent of unknown size uses the document store's count or reference whenever the store answers |
| ChildReferences.KnownSizeIgnoresStore | modeshape-jcr/src/main/java/org/modeshape/jcr/cache/document/ImmutableChildReferences.java:477-556 | a parent whose sizes are all known never depends on the document store's external answers |
| ChildReferences.WalkFrom | modeshape-jcr/src/main/java/org/modeshape/jcr/cache/document/ImmutableChildReferences.java:827-839 | the walk `Segment.next` performs loads at most as many segments as there are blocks, and ends where the chain reaches a null key or a missing block, reporting that block's key |
| ChildReferences.WalkFollowsChain | modeshape-jcr/src/main/java/org/modeshape/jcr/cache/document/ImmutableChildReferences.java:827-839 | segment i of the walk is the block reached after i steps along the chain of next-block keys |
| ChildReferences.SnsNumberingIsPerSegment | modeshape-jcr/src/main/java/org/modeshape/jcr/cache/document/ImmutableChildReferences.java:497-517 | two segments each holding one `a` child: count 2, index 1 found, index 2 null |
| ChildReferences.ExternalAnswerNameUnchecked | modeshape-jcr/src/main/java/org/modeshape/jcr/cache/document/ImmutableChildReferences.java:501-505 | a parent of unknown size returns the document store's answer unchecked, even a child of another name |
| SegmentChains.Next | modeshape-jcr/src/main/java/org/modeshape/jcr/cache/document/ImmutableChildReferences.java:827-839 | `next` returns a loaded successor as is; a null key ends the chain; a missing block throws DocumentNotFound and changes nothing; a present block is fetched once and remembered |
| SegmentChains.NewChainConsistent | modeshape-jcr/src/main/java/org/modeshape/jcr/cache/document/ImmutableChildReferences.java:456-464 | a fresh chain has loaded and fetched nothing, consistently |
| SegmentChains.NextPreservesConsistent | modeshape-jcr/src/main/java/org/modeshape/jcr/cache/document/ImmutableChildReferences.java:827-839 | every loaded segment is the block its predecessor names, fetched exactly once |
| SegmentChains.NextIsMemoised | modeshape-jcr/src/main/java/org/modeshape/jcr/cache/document/ImmutableChildReferences.java:827-839 | asking twice gives the same answer and no second fetch |
| SegmentChains.NextFetchesAtMostOnce | modeshape-jcr/src/main/java/org/modeshape/jcr/cache/document/ImmutableChildReferences.java:827-839 | an already loaded successor costs no fetch, otherwise at most one |
| SegmentChains.WalkSplits | modeshape-jcr/src/main/java/org/modeshape/jcr/cache/document/ImmutableChildReferences.java:827-839 | the segments a consistent chain has loaded begin the stateless walk |
| SegmentChains.LoadAll | modeshape-jcr/src/main/java/org/modeshape/jcr/cache/document/ImmutableChildReferences.java:827-839 | walking the chain through `next` loads exactly the stateless walk's segments, each fetched once, and a missing block surfaces as DocumentNotFound with its key |
| RangeIterators.ToInt | modeshape-jcr/src/main/java/org/modeshape/jcr/JcrObservationManager.java:343-350 | the `(int)` cast: a 32-bit value congruent to its input, the same when in range |
| RangeIterators.ToLong | modeshape-jcr/src/main/java/org/modeshape/jcr/JcrObservationManager.java:343-350 | `long` arithmetic: a 64-bit value congruent to its input |
| RangeIterators.New | modeshape-jcr/src/main/java/org/modeshape/jcr/JcrObservationManager.java:306-309 | the constructor rejects null, else starts at position 0 over the elements |
| RangeIterators.Next | modeshape-jcr/src/main/java/org/modeshape/jcr/JcrObservationManager.java:321-336 | `next` yields the element at the position and advances iff 0 <= position < size; at the end it raises NoSuchElement and leaves the iterator as it was |
| RangeIterators.Skip | modeshape-jcr/src/main/java/org/modeshape/jcr/JcrObservationManager.java:343-350 | `skip` moves the position modulo 2^32, even when it then raises NoSuchElement |
| RangeIterators.SkipThenNext | modeshape-jcr/src/main/java/org/modeshape/jcr/JcrObservationManager.java:326-350 | skipping k then taking one yields element p+k, or raises when that is past the end |
| RangeIterators.SkipWrapsAroundInt | modeshape-jcr/src/main/java/org/modeshape/jcr/JcrObservationManager.java:343-350 | skipping 2^32 leaves the iterator where it was |
| RangeIterators.NegativeSkipFailsLater | modeshape-jcr/src/main/java/org/modeshape/jcr/JcrObservationManager.java:321-350 | a skip of -1 from the start is accepted, and the next `next` fails with IndexOutOfBounds |
| RangeIterators.Drain | modeshape-jcr/src/main/java/org/modeshape/jcr/JcrObservationManager.java:311-336 | a `hasNext` / `next` loop over a fresh iterator yields every element in order |
| Observation.NewListener | modeshape-jcr/src/main/java/org/modeshape/jcr/JcrObservationManager.java:719-741 | the constructor keeps a null UUID array null and otherwise keeps exactly its members |
| Observation.UuidFilterOfConstructor | modeshape-jcr/src/main/java/org/modeshape/jcr/JcrObservationManager.java:732-738 | a constructed listener accepts every node for null UUIDs, none for an empty array, else exactly the members |
| Observation.ParentPathOf | modeshape-jcr/src/main/java/org/modeshape/jcr/JcrObservationManager.java:1048-1054 | the parent path is the change's own path for property changes and the root, else one segment shorter; it is always at or above the path |
| Observation.Gate | modeshape-jcr/src/main/java/org/modeshape/jcr/JcrObservationManager.java:949-951 | an event is kept iff every bit of its type is in the mask |
| Observation.ProcessChange | modeshape-jcr/src/main/java/org/modeshape/jcr/JcrObservationManager.java:769-878 | only renaming the root throws; a change producing events is a node change all filters accept |
| Observation.Collect | modeshape-jcr/src/main/java/org/modeshape/jcr/JcrObservationManager.java:745-763 | the events are collected iff no change threw |
| Observation.Notify | modeshape-jcr/src/main/java/org/modeshape/jcr/JcrObservationManager.java:745-767 | a rejected change set is not delivered; a delivery carries at least one event, all events of the change set; an abort is a thrown change |
| Observation.FilterByMask | modeshape-jcr/src/main/java/org/modeshape/jcr/JcrObservationManager.java:949-951 | the mask keeps a subset of the events, each with a listened type |
| Observation.GateIsFilter | modeshape-jcr/src/main/java/org/modeshape/jcr/JcrObservationManager.java:949-951 | gating one event is filtering it by the mask, and an all-types mask keeps it |
| Observation.AcceptsIgnoresMask | modeshape-jcr/src/main/java/org/modeshape/jcr/JcrObservationManager.java:922-1046 | the change filters do not look at the event-type mask |
| Observation.NodeAndPropertyEvents | modeshape-jcr/src/main/java/org/modeshape/jcr/JcrObservationManager.java:819-862 | an accepted NODE_ADDED/NODE_REMOVED or property change yields one event exactly when its type is listened for: at the node path, or at node path + property name with the current (and, for a change, previous) value, under the node's identifier |
| Observation.SequencingEvents | modeshape-jcr/src/main/java/org/modeshape/jcr/JcrObservationManager.java:863-874 | an accepted sequencing change yields one event exactly when its type is listened for: a sequenced node at the output path under the output node's identifier, a failure at the node path under its identifier with the cause; both record the input node's path and identifier |
| Common.EqualsIgnoreCaseIffUpper | modeshape-jcr/src/main/java/org/modeshape/jcr/JcrObservationManager.java:969-970 | `equalsIgnoreCase`, with ASCII case folding, holds exactly when the two upper-cased strings are equal |
| Observation.MoveLikeEvents | modeshape-jcr/src/main/java/org/modeshape/jcr/JcrObservationManager.java:789-818 | the events of an accepted move, rename or reorder, for any mask |
| Observation.MaskOnlyFilters | modeshape-jcr/src/main/java/org/modeshape/jcr/JcrObservationManager.java:769-878 | for one change, a listener's events are those an all-types listener gets, filtered by its mask |
| Observation.MaskOnlyFiltersAll | modeshape-jcr/src/main/java/org/modeshape/jcr/JcrObservationManager.java:745-878 | the same for a whole run of changes |
| Observation.EventsAreListenedFor | modeshape-jcr/src/main/java/org/modeshape/jcr/JcrObservationManager.java:769-878 | every event produced has a type the mask listens for |
| Observation.EventsInChangeOrder | modeshape-jcr/src/main/java/org/modeshape/jcr/JcrObservationManager.java:745-763 | the events of two consecutive runs of changes are the first run's then the second's |
| Observation.ExceptionAborts | modeshape-jcr/src/main/java/org/modeshape/jcr/JcrObservationManager.java:745-763 | the first change that throws aborts the whole change set, whatever follows |
| Observation.NoLocalDropsOwnChanges | modeshape-jcr/src/main/java/org/modeshape/jcr/JcrObservationManager.java:765-767 | with `noLocal`, a change set from this listener's own session is never delivered |
| Observation.ForeignWorkspaceDropped | modeshape-jcr/src/main/java/org/modeshape/jcr/JcrObservationManager.java:968-972 | a change set from a workspace other than this one or the system workspace is never delivered |
| Observation.WorkspaceMatchIgnoresCase | modeshape-jcr/src/main/java/org/modeshape/jcr/JcrObservationManager.java:968-972 | when the session filter passes, the change set is accepted exactly when its workspace name is non-null and equals this or the system workspace name after ASCII upper-casing; a null name is rejected |
| Observation.AllRejectedDeliversNothing | modeshape-jcr/src/main/java/org/modeshape/jcr/JcrObservationManager.java:745-763 | when no change passes the filters nothing is delivered |
| Observation.EmptyUuidsDeliverNothing | modeshape-jcr/src/main/java/org/modeshape/jcr/JcrObservationManager.java:1043-1046 | an empty UUID array means nothing is ever delivered |
| Observation.EmptyNodeTypesDeliverNothing | modeshape-jcr/src/main/java/org/modeshape/jcr/JcrObservationManager.java:987-1022 | an empty node-type array means nothing is ever delivered |
| Observation.NodeTypeFailureRejects | modeshape-jcr/src/main/java/org/modeshape/jcr/JcrObservationManager.java:987-1022 | a node-type lookup or derivation check that throws rejects the change |
| Observation.ShallowImpliesDeep | modeshape-jcr/src/main/java/org/modeshape/jcr/JcrObservationManager.java:1029-1037 | a shallow path filter accepts only what the deep one on the same path accepts |
| Observation.DeepFilterAcceptsDescendants | modeshape-jcr/src/main/java/org/modeshape/jcr/JcrObservationManager.java:1029-1054 | a deep filter accepts node changes strictly below its path and property changes at or below it |
| Observation.LockChangesSuppressed | modeshape-jcr/src/main/java/org/modeshape/jcr/JcrObservationManager.java:935-947 | property changes on a node directly under `/jcr:system/.../mode:locks` produce no event |
| Observation.FireNodeMovedInOrder | modeshape-jcr/src/main/java/org/modeshape/jcr/JcrObservationManager.java:893-920 | a move gives NODE_MOVED, then NODE_ADDED, then NODE_REMOVED, each kept by the mask |
| Observation.MoveExpandsToThreeEvents | modeshape-jcr/src/main/java/org/modeshape/jcr/JcrObservationManager.java:789-792 | with the three types listened for, an accepted move yields exactly those events with the right paths and info |
| Observation.RenameIsMoveFromOldSegment | modeshape-jcr/src/main/java/org/modeshape/jcr/JcrObservationManager.java:794-797 | a rename's old path is the new path's parent plus the old segment |
| Observation.RenamedRootAborts | modeshape-jcr/src/main/java/org/modeshape/jcr/JcrObservationManager.java:794-797 | renaming the root throws and aborts the notification |
| Observation.ReorderEvents | modeshape-jcr/src/main/java/org/modeshape/jcr/JcrObservationManager.java:799-818 | a reorder's NODE_MOVED names the destination (null at the end), names a source only for a known old path, and its NODE_REMOVED carries the old path |
| Observation.DeliveredIffEvents | modeshape-jcr/src/main/java/org/modeshape/jcr/JcrObservationManager.java:745-767 | a change set is delivered iff it is not rejected, no change throws and some event results; the delivery carries all events in change order |
| Backup.NewObserver | modeshape-jcr/src/main/java/org/modeshape/jcr/BackupObserver.java:51-53 | a new observer has the given queue and no used or unused keys |
| Backup.Step | modeshape-jcr/src/main/java/org/modeshape/jcr/BackupObserver.java:67-86 | one change cancels (the `break`) iff it is the opposite of the key's current standing, keeps the queue and keeps the sets disjoint |
| Backup.NotifyLoop | modeshape-jcr/src/main/java/org/modeshape/jcr/BackupObserver.java:55-88 | the loop as written: null is ignored, the nodes are queued in order, the sets stay disjoint |
| Backup.RunKeepsDisjoint | modeshape-jcr/src/main/java/org/modeshape/jcr/BackupObserver.java:65-87 | both loops keep the queue and keep used and unused disjoint |
| Backup.NotifyQueuesAndKeepsDisjoint | modeshape-jcr/src/main/java/org/modeshape/jcr/BackupObserver.java:55-88 | `notify` ignores null, appends the changed nodes to the queue and keeps the sets disjoint |
| Backup.UnmentionedKeysUntouched | modeshape-jcr/src/main/java/org/modeshape/jcr/BackupObserver.java:65-87 | keys no change mentions keep their standing |
| Backup.RunIsSaturatingCount | modeshape-jcr/src/main/java/org/modeshape/jcr/BackupObserver.java:65-87 | with every change processed, a key's standing is the use/unuse count saturated at used and unused |
| Backup.RunConcat | modeshape-jcr/src/main/java/org/modeshape/jcr/BackupObserver.java:65-87 | processing two runs of changes one after the other is processing their concatenation |
| Backup.AsWrittenIsPrefix | modeshape-jcr/src/main/java/org/modeshape/jcr/BackupObserver.java:65-87 | the loop as written processes a prefix of the changes: no change before the last one processed cancels, and it stops early only right after a cancelling change |
| Backup.BreakDropsLaterChanges | modeshape-jcr/src/main/java/org/modeshape/jcr/BackupObserver.java:73 | after a cancellation, a later change in the same set is not recorded |
| CmisNodes.RelationOfMapping | connectors/modeshape-connector-cmis/src/main/java/org/modeshape/connector/cmis/mapping/Nodes.java:44-49 | a line `a = b` with trimmed words parses into the relation (a, b) |
| CmisNodes.NewNodes | connectors/modeshape-connector-cmis/src/main/java/org/modeshape/connector/cmis/mapping/Nodes.java:39-49 | a fresh list holds exactly `cmis:folder`/`nt:folder` and `cmis:document`/`nt:file` |
| CmisNodes.FindJcrName | connectors/modeshape-connector-cmis/src/main/java/org/modeshape/connector/cmis/mapping/Nodes.java:57-64 | the JCR name of the first relation with that CMIS name, else the name itself |
| CmisNodes.FindCmisName | connectors/modeshape-connector-cmis/src/main/java/org/modeshape/connector/cmis/mapping/Nodes.java:74-81 | the CMIS name of the first relation with that JCR name, else the name itself |
| CmisNodes.FindCmisNameOf | connectors/modeshape-connector-cmis/src/main/java/org/modeshape/connector/cmis/mapping/Nodes.java:89-91 | the `Name` overload looks up the name's `toString()` rendering |
| CmisNodes.AddTypeMapping | connectors/modeshape-connector-cmis/src/main/java/org/modeshape/connector/cmis/mapping/Nodes.java:96-106 | `addTypeMapping` keeps the length when a relation with the `getString()` name existed, else grows by one; the new relation is last; no other relation is lost or added |
| CmisNodes.AddTypeMappingLoop | connectors/modeshape-connector-cmis/src/main/java/org/modeshape/connector/cmis/mapping/Nodes.java:96-106 | the iterator loop with `remove` and `break` computes that function |
| CmisNodes.RemoveFirstKeeps | connectors/modeshape-connector-cmis/src/main/java/org/modeshape/connector/cmis/mapping/Nodes.java:98-104 | the removal keeps every relation with another JCR name and adds none |
| CmisNodes.RemoveFirstUnique | connectors/modeshape-connector-cmis/src/main/java/org/modeshape/connector/cmis/mapping/Nodes.java:98-104 | with unique JCR names, the removal leaves no relation with that name |
| CmisNodes.AddThenFindCmis | connectors/modeshape-connector-cmis/src/main/java/org/modeshape/connector/cmis/mapping/Nodes.java:96-106 | with agreeing renderings and unique JCR names, the name then maps to the new CMIS name and names stay unique |
| CmisNodes.AddKeepsOtherMappings | connectors/modeshape-connector-cmis/src/main/java/org/modeshape/connector/cmis/mapping/Nodes.java:96-106 | every other JCR name resolves as before |
| CmisNodes.StaleMappingWins | connectors/modeshape-connector-cmis/src/main/java/org/modeshape/connector/cmis/mapping/Nodes.java:96-113 | when `getString()` and `toString()` differ, the earlier mapping is not removed and keeps winning the lookup |
| CmisNodes.BaseMappings | connectors/modeshape-connector-cmis/src/main/java/org/modeshape/connector/cmis/mapping/Nodes.java:39-81 | in a fresh list the base types map both ways and any other name maps to itself |
| CmisGetObject.ShouldHandleIff | connectors/modeshape-connector-cmis/src/main/java/org/modeshape/connector/cmis/operations/impl/CmisGetObjectOperation.java:290-306 | handled iff the name lacks the CMIS prefix and is either a `jcr:` name or a writable property of a non-base type |
| CmisGetObject.BaseDocumentOnlyJcr | connectors/modeshape-connector-cmis/src/main/java/org/modeshape/connector/cmis/operations/impl/CmisGetObjectOperation.java:290-299 | on `cmis:document` only `jcr:` names are handled |
| CmisGetObject.Put | connectors/modeshape-connector-cmis/src/main/java/org/modeshape/connector/cmis/operations/impl/CmisGetObjectOperation.java:276-281 | `put`: the key maps to the new value, other keys are unchanged, a present key keeps its place and a new key goes last |
| CmisGetObject.Lookup | connectors/modeshape-connector-cmis/src/main/java/org/modeshape/connector/cmis/operations/impl/CmisGetObjectOperation.java:276-281 | the map's value for a key, present iff the key is |
| CmisGetObject.Remove | connectors/modeshape-connector-cmis/src/main/java/org/modeshape/connector/cmis/operations/impl/CmisGetObjectOperation.java:267-269 | `remove` drops exactly the given id |
| CmisGetObject.ProcessProperties | connectors/modeshape-connector-cmis/src/main/java/org/modeshape/connector/cmis/operations/impl/CmisGetObjectOperation.java:265-285 | the map built has each key at most once |
| CmisGetObject.ProcessFromFailsAtFirstThrow | connectors/modeshape-connector-cmis/src/main/java/org/modeshape/connector/cmis/operations/impl/CmisGetObjectOperation.java:265-285 | the loop throws iff some property is mapped but has no definition, naming the first such property |
| CmisGetObject.ProcessFromFailureDefs | connectors/modeshape-connector-cmis/src/main/java/org/modeshape/connector/cmis/operations/impl/CmisGetObjectOperation.java:267-269 | on a throw, exactly the ids up to the throwing property are gone from the pending definitions |
| CmisGetObject.ProcessFromRemovesVisited | connectors/modeshape-connector-cmis/src/main/java/org/modeshape/connector/cmis/operations/impl/CmisGetObjectOperation.java:267-269 | on completion, exactly the visited ids are gone, skipped ones included |
| CmisGetObject.ProcessFromBuildsMap | connectors/modeshape-connector-cmis/src/main/java/org/modeshape/connector/cmis/operations/impl/CmisGetObjectOperation.java:265-285 | the map holds the surviving names in first-insertion order, each with the values of the last property surviving under it |
| CmisGetObject.ProcessPropertiesBuildsMap | connectors/modeshape-connector-cmis/src/main/java/org/modeshape/connector/cmis/operations/impl/CmisGetObjectOperation.java:265-285 | the same from the empty map `processProperties` starts with |
| CmisGetObject.DocumentParents | connectors/modeshape-connector-cmis/src/main/java/org/modeshape/connector/cmis/operations/impl/CmisGetObjectOperation.java:124-133 | the parents are the OBJECT ids of the parent folders in order, or exactly the unfiled-storage id when there are none |

## Left out

- Iterators (`iterator`, `iterator(name)`, `iterator(context, …)`), `toString` renderings, name-pattern iterators and `allowsSNS`: they need a namespace registry or the shared context-aware iterator in `AbstractChildReferences`, which is not part of this model.
- Mediums.GetChildByName: the path through the overlay's per-name view neither reads nor advances the context's per-name `consume` counters, and it returns the context unchanged. The context-aware iterator behind the view is not part of this model, so how it consumes indexes is not modelled. Only the scan of inserted references advances the counters.
- Mediums.GetChildByKey: the overlay's per-name view is an uninterpreted function, because the iterator behind it is not part of this model; the contract says only what holds for any view.
- ChildReferences.GetChildByNameMatchesFlat: composes segments only for lookups without changes; lookups with changes are stated per segment in the Mediums lemmas. It also requires an index of at least 1: an index below 1 throws IndexOutOfBounds from the first segment asked, as `Mediums.SnsDensity` states per segment.
- ChildReferences.GetChildByKeyMatchesFlat: likewise only without changes.
- ChildReferences.HasChildMatchesFlat: assumes every block is present; a missing block is ChildReferences.MissingBlockFails. `hasChild` never consults the document store, so sizes may be unknown.
- ChildReferences.ChildCountMatchesFlat: assumes every block is present and no size is unknown; an unknown size is ChildReferences.UnknownSizeAsksStoreFirst and ChildReferences.KnownSizeIgnoresStore.
- ChildReferences.AllKeysMatchesFlat: assumes every block is present and no union is involved; unions are ChildReferences.UnionKeysKeepShared.
- Cyclic block chains: every chain must end within as many steps as there are blocks (`ChainEnds`). On a cyclic chain the Java loops never end.
- `UNKNOWN_SIZE` is taken as -1. The `ChildReferences` interface that declares it is not part of this model.
- The `int` overflow of `getChildCount` sums and the `long` overflow of `size()`: counts are unbounded integers.
- `DocumentTranslator`, `WorkspaceCache` and `DocumentStore` are a block map plus optional external answers. Translating a document into references is a given list of optional references.
- `Context.consume` is modelled as per-name counters starting at 1. The context implementation is not part of this model.
- Unicode: `equalsIgnoreCase` folds ASCII letters only. Digits are ASCII only. `trim` uses the chars at or below U+0020, as Java does.
- Path parsing (`absPath` into a `Path`) is a session function. Its exceptions are not modelled.
- The sequencing event types are taken as 0x80 and 0x100. Their declaring interface is not part of this model.
- Listener registration, the listener list, event timestamps, user data, the date and user of events, and the `ConcurrentHashMap`-backed key sets: they concern concurrency or rendering.
- `JcrEventListenerIterator` and `JcrEventIterator`: they only wrap `JcrRangeIterator`.
- RangeIterators.SkipThenNext: it requires a skip that stays within `int`. The wrapping case is stated by RangeIterators.SkipWrapsAroundInt and RangeIterators.Skip.
- CmisNodes.FindJcrName: a null `cmisName` argument is not modelled. The Java `equals` of a relation against null is false, so the loop would return null.
- `Name.getString()` and `Name.toString()` are two given renderings. Nothing assumes they agree.
- CmisNodes.AddThenFindCmis: it requires the two renderings to agree. The case where they differ is CmisNodes.StaleMappingWins.
- The DocumentWriter, content-stream and folder parts of `CmisGetObjectOperation`; `toJcrProperty`, `jcrValues`, `ObjectId.toString` and `Constants.CMIS_PREFIX` are parameters.
- `CmisConnector`, `CmisUpdateOperation`, `CmisOperationCommons`: remote CMIS session glue.

## Findings

| source | as written | input that shows it | evidently intended | confidence | as-written member | corrected member |
|---|---|---|---|---|---|---|
| modeshape-jcr/src/main/java/org/modeshape/jcr/BackupObserver.java:73 | when a `BinaryValueUnused` (or, at line 83, a `BinaryValueUsed`) cancels an earlier opposite change, `break` ends the loop over the whole change set | used = {"a"}, change set [BinaryValueUnused("a"), BinaryValueUsed("b")]: "b" is never recorded as used | `continue`: skip only the rest of this change, so every change is accounted for | medium; not executed | Backup.BreakDropsLaterChanges | Backup.RunIsSaturatingCount |
