# A verified model of recapn's message heap and request channels

`recapn` reads and builds Cap'n Proto messages in place, and `recapn-channel` moves requests through
channels that can be forwarded to one another. This project models both in Dafny and proves what they
promise.

**The message heap.** A message is a set of word segments filled by a bump allocator. Tagged 64-bit
pointers link the words: near, far, double-far, struct, list, capability.

- `wire.dfy`, `reader.dfy`, `values.dfy`: pointer words; the reader over arbitrary words with its bounds
  checks and limiter; and what a pointer *means*, the tree of values a reader without limits finds behind
  it, together with the words it does not look at. `designation.dfy` says which pointers a reader accepts,
  `readcosts.dfy` what a reading charges, and so when a limiter refuses it.
- `layout.dfy`, `arena.dfy`, `building.dfy`, `allocators.dfy`: the builder's allocations as functions of
  the message, the same on an arena of word buffers, and runs of them from an empty message. `rooms.dfy`
  says when allocations, transfers and promotions are refused, in words that are left and grants.
- `putting.dfy`, `fitting.dfy`, `copying.dfy`, `machine.dfy`, `deepcopy.dfy`: the deep copy, which reads
  arbitrary words of one message while it builds another, and what is written but not read back.
  `auditing.dfy`, `accounts.dfy`, `reckoning.dfy` are the account of a copy: what it charges, visits, takes and
  loses, step by step, and what that amounts to.
- `sizing.dfy`, `depths.dfy`, `sizingcosts.dfy`, `prediction.dfy`: `target_size`, when there is a size, and the copy
  into one segment of exactly that size.
- `promotion.dfy`, `promoting.dfy`, `listpromotion.dfy`, `datapromotion.dfy`, `pointerpromotion.dfy`,
  `promotinglists.dfy`, `upgrading.dfy`: structs and lists that move to a larger size, with every pointer they
  hold, and the size a list is upgraded to; `midway.dfy` is a promotion that is refused on the way.
- `builttrees.dfy`, `links.dfy`, `promotedruns.dfy`: the tree a message means that was built by a run, before and
  after a promotion; and runs in which allocations, data writes and promotions of structs follow one another.
- `equality.dfy`, `listequality.dfy`, `equalitymeaning.dfy`: the comparison of two trees and what it decides;
  `walking.dfy`, `walked.dfy`, `walklimits.dfy`, `comparing.dfy`: the walk through the words of two messages that
  compares them, with its limiters.
- `canonical.dfy`, `canonicalcopy.dfy`: the canonical form and the canonical copy.

**The channels.**

- `channels.dfy`, `channelsteps.dfy`, `channelruns.dfy`: every public operation of `mpsc` as one atomic step
  on all channels, the invariant of every run, and what follows from it. `forwards.dfy` is about refused senders,
  `deliveries.dfy` about receiving and waking.
- `channelheap.dfy`, `sendercounts.dfy`: the operations on channel objects that refer to each other, proved to
  be those steps, and the count of senders.
- `pipeline.dfy`: any number of `build` calls against `resolve_pipeline_map`, at the granularity of the
  map's lock and of the flag's loads and stores.

**Two small tables.** `segments.dfy` is the index of segment positions against the scan of lengths,
`slots.dfy` the numbered slots with a heap of free ones. `options.dfy` is the option type and `sums.dfy` the sum
they share with others.

Code that changes words, queues or tables in place is a class with methods. Each of its methods is proved
equal to a function of the state, and the theorems are about those functions. A message under construction
is seen up to the used length of each segment. Offsets are signed, as they are when debug assertions are
off: `recapn/src/ptr.rs:3136` rejects backward offsets only in a debug build, and promotion makes them.

## Where the code does not do what it says

The model keeps each of these as the code has it.

- A list that fills a segment and is wider than a word per element is written with its element count where
  the word count belongs (`recapn/src/ptr.rs:3563`). `ReadBackExactly` says exactly which shapes come back,
  `FullListIsNotReadBack` is a concrete one that does not.
- `total_words` is truncated to 32 bits (`recapn/src/ptr.rs:899-903`), so composite lists above
  `max_elements` can be allocated too small: `RoomExactly` says for exactly which shapes the room is there,
  `MaxElementsIsExact` gives the bound, and `WrappedIsPlaced` is a message with one word of room in which a
  list of 2^32 words is placed without an error.
- A copy without errors that holds a list the builder cannot write readably does not mean its source; every
  other does. `TryCopyFrom` says exactly which, by the shapes of the objects.
- The documentation of `to_list_mut` promises that the pointer is cleared if the promotion fails
  (`recapn/src/ptr.rs:4035`). It is null exactly if there was no room for the new object; after a refusal on the
  way it refers to that object, which holds what was moved so far. `RefusedPromotion` and `RefusedUpgrade`
  say so, `NotCleared` is an input.
- Copying a null root yields an empty struct (`recapn/src/ptr.rs:6092-6113`), because a null word decodes as
  one: `CopyOfNull`. That a copy means what its source meant is about non-null roots.
- A capability that the destination table takes for null copies without an error, and then the copy does not
  compare equal to its source. `CopyAndCompare` says exactly when.
- Comparison is no equality. It takes null for an empty struct, ignores extra pointers
  (`recapn/src/ptr.rs:5753`) and with them the struct size of lists, empty ones included, ignores padding, and
  masks the wrong end of a partial byte (`recapn/src/ptr.rs:5810`). `NullEqualsNoData`, `ExtraPointers`,
  `ExtraPointersInLists`, `EmptyComposites`, `PaddingIgnored` and `PartialBytes` are inputs for each, and
  `NotTransitive` is what follows. `UnequalIsDifferent` says where it decides, and `ListsCompare` which elements
  and bits of a list it looks at.
- Promotion of a pointer list ignores the stride of the new structs (`recapn/src/ptr.rs:6052`).
  `PointerPromotionPreserves` says exactly when the pointers are where the structs have them.
- The scan of segment lengths indexes past the data for empty segments at the end
  (`recapn/src/io.rs:127`): `IndexAgreesWithScan` says exactly for which, `EmptyLastSegment` is one.
- The drop of the last sender does not close the channel, because the count is compared to 0 before it is
  decremented (`recapn-channel/src/mpsc.rs:766`): `NeverCloses`.

The source promises no order for the answers of `close` (`recapn-channel/src/util/array_vec.rs:37-43`).
`BatchesAt` gives their order, and `AnswersInOrder` shows that it is that of the queue for at most one item only.

## Model

| member | source | states |
|---|---|---|
| Wire.StructRoundTrip | recapn/src/ptr.rs:592-648 | A struct pointer decodes to the offset and size it was made of, and is null only for the empty struct at offset zero |
| Wire.ListRoundTrip | recapn/src/ptr.rs:1182-1224 | A list pointer decodes to its offset, element size and count, and is never null |
| Wire.FarRoundTrip | recapn/src/ptr.rs:1248-1274 | A far pointer decodes to its segment, pad offset and kind |
| Wire.CapabilityRoundTrip | recapn/src/ptr.rs:1298-1313 | A capability pointer decodes to its index |
| Wire.TagRoundTrip | recapn/src/ptr.rs:605-626 | A composite tag gives back the element count and the struct size, although the count sits where an offset is read with its sign |
| Wire.MovedPointer | recapn/src/ptr.rs:426-434 | Replacing the content offset of a struct or list pointer changes the offset and nothing else |
| Wire.EncodeDecode | recapn/src/ptr.rs:413-648 | Every 64-bit word is the encoding of what it decodes to, so no two pointers share a word |
| Reader.ReaderSound | recapn/src/ptr.rs:1561-1894 | On arbitrary words: an accepted object has a shape a message can hold, lies with its tag inside one segment, and the limiter was charged at least all of it and never grew |
| Reader.ElementInside | recapn/src/ptr.rs:2852-2959 | Every pointer field, list element (bits included) and word of a composite element of an accepted object lies in the region that was checked, and is a pointer exactly where the shape says |
| Reader.LimiterOnlyRefuses | recapn/src/ptr.rs:1659-1694 | A limiter changes the outcome of a reading only into a read-limit error |
| Designation.ReadsExactly | recapn/src/ptr.rs:1561-1894 | On arbitrary words: a reading accepts a pointer as this struct, list or capability if and only if the words encode that, near, over a landing pad of one word or over one of two, with the content in bounds and a tag that names no more than the words of the list |
| ReadCosts.ReadingMetered | recapn/src/ptr.rs:1561-1694 | A reading is refused for the limiter if and only if what it costs is more than is left; otherwise it ends as it does without a limiter, and exactly the cost is charged |
| ReadCosts.AcceptedCosts | recapn/src/ptr.rs:1561-1894 | The cost of an accepted object is its landing pads, its words and tag, and the count of a list whose elements take no words, lists of empty structs included |
| Reader.ListWordsAreBits | recapn/src/ptr.rs:889-912 | The words of a list are its bits rounded up, for every element size |
| Allocators.ReadLimiter.TryRead | recapn/src/message.rs:471-479 | The words are charged if and only if they are left, all of them or none; over any run the initial limit is what is left plus everything charged |
| Values.MeaningIsUnique | recapn/src/ptr.rs:1733-1758 | A pointer means at most one tree of values |
| Values.ResolveFrame | recapn/src/ptr.rs:1696-1731 | What a pointer resolves to depends on the pointer, its landing pads and the tag alone |
| Values.DenotesFrame | recapn/src/ptr.rs:1733-1894 | A meaning survives every change to words it does not read |
| Layout.AllocObjectGood | recapn/src/ptr.rs:3364-3567 | Every allocation of a shape that fits either changes no old word, or makes the pointer resolve to exactly the new, zeroed object, whether near, far or double-far; pads and tag are new and apart from the content |
| Layout.AllocObjectSafe | recapn/src/ptr.rs:3364-3567 | For every shape a message can hold, a successful allocation gives fresh zeroed room and changes only the pointer among old words |
| Layout.ReadBackExactly | recapn/src/ptr.rs:3455-3567 | A successful allocation reads back as asked for if and only if the shape fits: the tag of a whole-segment list holds the element count, and 32-bit word counts wrap |
| Layout.RoomExactly | recapn/src/ptr.rs:3364-3567 | A successful allocation of an object has its room, fresh and zeroed, if and only if a message can hold the shape |
| Building.BuiltIsReadable | recapn/src/ptr.rs:3364-3567 | After any run of allocations and data writes from an empty message, every pointer resolves to exactly the object that was returned; content, tag and pads of each object are apart from each other and from those of all others, and in bounds |
| Building.RunSound | recapn/src/ptr.rs:3364-3567 | Every object of every reachable message is readable, apart from all others, and held by the root or a field of another |
| Building.StepSound | recapn/src/ptr.rs:3364-3567 | One allocation into a null field, or one data write, keeps every earlier object resolvable, apart and in bounds |
| Building.FullListIsNotReadBack | recapn/src/ptr.rs:3534-3567 | A concrete list of two-word structs that fills a segment is allocated without an error and does not resolve to itself |
| Rooms.ArenaRefuses | recapn/src/arena.rs:392-410 | A request fails if and only if neither the last segment has the words nor the allocator grants one more segment within the segment bound |
| Rooms.ObjectRefused | recapn/src/ptr.rs:3364-3567 | The allocation of an object is refused if and only if its segment lacks the words, and neither the last segment nor the allocator has these and one for a landing pad; whole-segment lists excepted |
| Rooms.ObjectTakes | recapn/src/ptr.rs:3364-3567 | With room for an object and two words for each of its pointers, or as many grants, it is placed, and where it was placed the room for the pointers is left |
| Allocators.MaxElementsIsExact | recapn/src/ptr.rs:333-341 | Up to the maximum element count, and not above it, a struct list fits a segment with its tag; there the 32-bit word count is exact |
| Allocators.WordsWrap | recapn/src/ptr.rs:899-912 | Above the bound the word count can wrap to 0: 2^16 structs of 2^16 words ask for one word |
| Allocators.WrappedIsPlaced | recapn/src/ptr.rs:899-912 | A message with one word of room in which such a list is placed without an error, and has no content |
| Allocators.PlainTotalIsExact | recapn/src/ptr.rs:899-912 | The 32-bit word count of a list of plain elements or pointers is never truncated |
| Allocators.Growing.Alloc | recapn/src/alloc.rs:390-398 | The growing allocator asks for at least the request and at least the size due next, and its next size is the first size plus everything issued, until it saturates at the segment bound |
| ArenaHeap.Arena.TryUseLen | recapn/src/arena.rs:155-169 | Words are taken from a segment exactly when they are left in it, in place and zeroed |
| ArenaHeap.Arena.Alloc | recapn/src/arena.rs:392-410 | The last owned segment first, then a new segment with the next id, until the allocator or the segment count refuses |
| ArenaHeap.Arena.AllocStruct | recapn/src/ptr.rs:3364-3400 | On word buffers: the state, outcome and start of struct allocation, the empty struct included |
| ArenaHeap.Arena.AllocSegmentOfList | recapn/src/ptr.rs:3534-3567 | On word buffers: the double-far pad is taken before the list, and both pad words and the pointer are written |
| ArenaHeap.Arena.AllocList | recapn/src/ptr.rs:3455-3531 | On word buffers: the state, outcome and start of list allocation with the composite tag |
| ArenaHeap.Arena.AllocObject | recapn/src/ptr.rs:3364-3567 | On word buffers: an allocation of any shape is the one the readability lemmas speak of |
| Putting.PutReads | recapn/src/ptr.rs:6085-6216 | Writing a tree into a null pointer and reading it back gives the tree, less the objects that found no room; the reader looks at no word that was there before |
| Putting.NothingLost | recapn/src/ptr.rs:6085-6216 | If no allocation failed the whole tree is stored |
| Machine.CopyMachine.HandleErr | recapn/src/ptr.rs:6504-6507 | Every error is counted, and ends the copy exactly when the handler says so |
| Machine.CopyMachine.CopyPtr | recapn/src/ptr.rs:6085-6182 | The copy of one pointer of arbitrary words, with or without a limiter: the destination is the one that writing the taken tree gives, and the account of that tree, charge by charge, visit by visit and error by error, is what the copy used, up to where it was broken off |
| Machine.CopyMachine.CopyPtrSection | recapn/src/ptr.rs:6488-6502 | A section of pointers, null ones skipped, up to the error that ends the copy |
| Machine.CopyMachine.CopyStruct | recapn/src/ptr.rs:6468-6486 | Data, then pointers of one struct, at its place in the content |
| Machine.CopyMachine.CopyInlineComposites | recapn/src/ptr.rs:6447-6465 | Every element of a composite list, at its stride |
| Machine.CopyMachine.CopyContent | recapn/src/ptr.rs:6184-6216 | The content of any object, by its shape |
| Accounts.PtrTaken | recapn/src/ptr.rs:6085-6182 | What the account of a copy says of the taken tree: not broken off it is the source with pointers nulled, with no allocation failed only those that are unreadable, failed in the tables or cost more than was left, and with no error none |
| Accounts.PtrPaid | recapn/src/ptr.rs:6085-6182 | A walk makes at most one visit more than it charges words, and every failed allocation is an error |
| Accounts.LimiterMakesNoDifference | recapn/src/ptr.rs:6085-6182 | A copy under a limiter that has the words of everything that can be read takes the same tree as without one, meets as many errors and is broken off alike |
| Accounts.AffordedCopy | recapn/src/ptr.rs:6085-6182 | Such a copy nulls exactly what is unreadable if no allocation failed; of a source without faults only failed allocations are errors |
| Reckoning.PtrObeys | recapn/src/ptr.rs:6504-6507 | The handler let every error pass but the last one of a copy that was broken off, which it did not |
| Reckoning.PtrReckoned | recapn/src/ptr.rs:6085-6182 | The errors of a copy are the pointers it gave up and the allocations that failed: where none failed, exactly one for each pointer given up |
| Reckoning.PtrAsReadable | recapn/src/ptr.rs:6085-6182 | A copy that was not broken off leaves the message that writing everything readable would leave, objects without room and all below them skipped |
| Reckoning.ReadableExists | recapn/src/ptr.rs:6085-6182 | Where pointers come to an end, everything readable is a tree |
| DeepCopy.TryCopyFrom | recapn/src/ptr.rs:4524-4543 | The deep copy: only the pointer and unused words change. With a limiter that has the words of the source, or none, the message is the one into which the source with exactly its unreadable pointers nulled is written as far as there is room, and every pointer given up is one error; with fewer words the other nulled pointers cost more than is left. Without errors the destination means what the source meant if and only if every object can be written readably. The copy is broken off at the first error the handler refuses; L words of a limiter bound the visits by 1 + L |
| Fitting.NotMeant | recapn/src/ptr.rs:6085-6182 | A tree with an object that cannot be written readably is not what the words mean it was written to without an error, whatever changes elsewhere |
| DeepCopy.ExactCopyIsMeaning | recapn/src/ptr.rs:6085-6182 | A copy without errors took the meaning of the source, capabilities renamed |
| DeepCopy.ExactCopyMeans | recapn/src/ptr.rs:6085-6182 | Conversely, a copy of a non-null pointer without errors shows that the source has a meaning, and took that meaning with its capabilities renamed, whatever the tables |
| DeepCopy.ReadableIsUnique | recapn/src/ptr.rs:6085-6182 | The source with every unreadable pointer nulled is one tree: no other copy takes everything readable |
| DeepCopy.MeaningEnds | recapn/src/ptr.rs:6085-6182 | A source with a meaning is a walk that ends, so that without a limiter the copy terminates on it |
| Sizing.ComputeTargetSize | recapn/src/ptr.rs:1995-2048 | The accumulating recursion over pointers, with the shared limiter and the nesting limit, computes the recursive size; the first error ends it |
| Sizing.SizeIsCharged | recapn/src/ptr.rs:1995-2101 | The words reported never exceed the words the limiter was charged, zero-size and void lists included |
| Sizing.SizedMeans | recapn/src/ptr.rs:1995-2101 | A pointer that could be sized has a meaning, and the reported size is the size of that meaning |
| Depths.SizedExactly | recapn/src/ptr.rs:1995-2101 | A pointer with a meaning can be sized if and only if the meaning has no more objects that can hold pointers on any way down than the nesting limit allows |
| SizingCosts.SizedIfMeant | recapn/src/ptr.rs:1995-2101 | With or without a limiter, a size is reported if and only if the pointer has a meaning within the nesting limit and the limiter has the words that reading all of it costs; and it is the size of the meaning |
| SizingCosts.TargetUnder | recapn/src/ptr.rs:1995-2101 | With the words of everything within the nesting limit, sizing ends under a limiter as it does without one, errors included, and a size has charged exactly these words |
| Prediction.PutExact | recapnc/src/generator.rs:1159-1193 | With room for its size, a tree is written completely and takes exactly that many words |
| Prediction.PtrToSlice | recapnc/src/generator.rs:1159-1193 | Copying into one segment of the predicted size and a root word meets no error, fills the segment to the last word, and means what the source means |
| Promotion.TransferGood | recapn/src/ptr.rs:5890-5973 | A transferred pointer refers to what it referred to, directly, over a new landing pad or a double-far one; only its new place and unused words change, and no non-null pointer becomes null |
| Promotion.TransferSectionGood | recapn/src/ptr.rs:5975-5990 | Every pointer of a section means at its new place what it meant at the old one |
| Promotion.SectionIsSane | recapn/src/ptr.rs:5975-5990 | The transfer of a held section fails on a refused allocation only |
| Rooms.TransferRefused | recapn/src/ptr.rs:5890-5973 | A pointer cannot be transferred if and only if it is near and changes its segment, the old segment has no word for a landing pad, and neither the new segment nor the last one nor the allocator has two |
| Rooms.PromotionSucceeds | recapn/src/ptr.rs:3880-3937 | A struct is promoted whenever its segment, the last one, or the allocator has room for the larger struct and two words or one grant for each of its pointers |
| Rooms.UpgradeSucceeds | recapn/src/ptr.rs:4051-4115 | So is a list, of whatever elements, with room for the new list and for the pointers of all its elements |
| Promotion.PromotionPreserves | recapn/src/ptr.rs:3880-3937 | Struct promotion: the old data words, the old meaning of every field, zeros and nulls for the rest; old body and pads cleared; no other old word changed |
| Promotion.RefusedPromotion | recapn/src/ptr.rs:3880-3937 | A refused promotion leaves a null pointer exactly if there was no room for the larger struct, and otherwise a pointer to it |
| Midway.NotCleared | recapn/src/ptr.rs:4035-4036 | A message in which the promotion of a struct is refused on the way and the pointer is not null |
| Promoting.TransferPtr | recapn/src/ptr.rs:5890-5973 | On word buffers: the state after one transferred pointer, and whether it was refused |
| Promoting.TransferPtrSection | recapn/src/ptr.rs:5975-5990 | On word buffers: the loop over a section, up to the first refusal |
| Promoting.ClearPtr | recapn/src/ptr.rs:3254-3269 | On word buffers: the pointer and its landing pads, as far as there are any, are null afterwards |
| Promoting.ClearSection | recapn/src/ptr.rs:3271-3277 | On word buffers: the words of a section are null afterwards |
| Promoting.ToStructMutInner | recapn/src/ptr.rs:3880-3937 | A struct that is large enough stays as it is; a smaller one is promoted with its meaning, or refused exactly when the promotion as a function of the state is, with the pointer as such a refusal leaves it; the rest of the message is untouched |
| ListPromotion.ListPromotionPreserves | recapn/src/ptr.rs:4051-4115 | Struct list promotion: as many structs of the larger size, where struct i has the data and the pointer meanings of the old struct i, zeros and nulls for the rest; the old list cleared with its tag |
| DataPromotion.PlainPromotionPreserves | recapn/src/ptr.rs:4051-4115 | Promotion of a list of 1, 2, 4 or 8-byte elements: element i is the first bytes of struct i, the rest is zero and null, the old list is cleared |
| DataPromotion.ElementBytes | recapn/src/ptr.rs:6020-6050 | Byte k of a promoted element is byte k of the old element, and zero behind it |
| PromotingLists.MoveAllStructs | recapn/src/ptr.rs:6053-6068 | On word buffers: the loop over the structs of a list, up to the first refusal |
| PromotingLists.PromoteStructs | recapn/src/ptr.rs:4051-4115 | On word buffers: the promotion of a list of structs, with what it preserves |
| PromotingLists.WriteAllElements | recapn/src/ptr.rs:6031-6043 | On word buffers: the loop that writes the elements into the first bytes of the structs |
| PromotingLists.PromotePlainList | recapn/src/ptr.rs:4051-4115 | On word buffers: the promotion of a list of plain elements, with what it preserves |
| PointerPromotion.PointerPromotionPreserves | recapn/src/ptr.rs:6052-6052 | Pointer list promotion: every pointer keeps its meaning, one behind the other at the start of the new list; pointer i is the first of struct i, and everything else zero and null, if and only if the structs are nothing but one pointer, or all pointers but possibly the first word are null |
| PointerPromotion.StrideIsIgnored | recapn/src/ptr.rs:6052-6052 | Two pointers, the second not null: promoted to structs of one data word and one pointer, or of two pointers, they are not where the structs have them |
| PointerPromotion.VoidPromotionPreserves | recapn/src/ptr.rs:4051-4115 | Promotion of a list of nothing: as many structs, all zero and null |
| PromotingLists.PromotePointerList | recapn/src/ptr.rs:4051-4115 | On word buffers: the promotion of a list of pointers, with what it preserves |
| PromotingLists.PromoteVoidList | recapn/src/ptr.rs:4051-4115 | On word buffers: the promotion of a list of nothing |
| Upgrading.UpgradeHoldsBoth | recapn/src/ptr.rs:987-1016 | The element size an upgrade settles on is the least that holds both the existing and the expected elements; there is one if and only if both are structs or one of the two sizes holds the other |
| Upgrading.UpgradeAgain | recapn/src/ptr.rs:942-1016 | The order of the sizes does not matter, and upgrading the result again, to itself or to either size, gives the same result |
| Upgrading.UpgradeIsPromotable | recapn/src/ptr.rs:4065-4087 | An upgrade that changes the list is to structs its elements can be promoted to; to anything else is unreachable |
| Upgrading.RefusedUpgrade | recapn/src/ptr.rs:4051-4115 | A refused upgrade leaves a null pointer exactly if there was no room for the new list, and otherwise a pointer to it |
| Upgrading.ToListMutInner | recapn/src/ptr.rs:4051-4115 | A list without need of an upgrade is opened as it is, one that cannot be upgraded is refused and left alone, any other is promoted with what its kind of promotion preserves, or refused with the pointer null exactly if there was no room for the new list; what is opened has room for what was held and expected |
| BuiltTrees.TreeMeans | recapn/src/ptr.rs:1733-1894 | In a message that was built every object means the tree of its fields, and finding that out reads its words and those of later objects only |
| BuiltTrees.BuiltMeans | recapn/src/ptr.rs:3364-3567 | After any run the root is the pointer to the first object and means the tree of all objects |
| BuiltTrees.StructIsHeld | recapn/src/ptr.rs:3880-3937 | Every struct of a message that was built is held by one pointer only, so it can be promoted |
| BuiltTrees.ListIsHeld | recapn/src/ptr.rs:4051-4115 | So is every list of structs, with its tag |
| BuiltTrees.PlainIsHeld | recapn/src/ptr.rs:4051-4115 | So is every list of plain elements |
| BuiltTrees.PointersAreHeld | recapn/src/ptr.rs:4051-4115 | So is every list of pointers, of which each means the tree of the object it leads to |
| BuiltTrees.BecomesSomething | recapn/src/ptr.rs:4051-4115 | There is a tree every list of a built message becomes, except a list of pointers whose stride does not fit |
| Links.SectionLinks | recapn/src/ptr.rs:5975-5990 | Each pointer of a transferred section leads to the object it led to, over its old pads or new ones that no other pointer of the section shares |
| PromotedRuns.SwappedSound | recapn/src/ptr.rs:3880-3937 | After the promotion of a struct every object is readable, apart from all others, and held by the root or a field of another, as before |
| PromotedRuns.SwappedTreeLike | recapn/src/ptr.rs:3880-3937 | And every field is still null or leads to a later object, one pointer to each |
| PromotedRuns.StillMeans | recapn/src/ptr.rs:3364-3937 | However allocations, data writes and promotions of structs follow one another, every pointer resolves to its object, all words are apart, and the root means the tree of all objects |
| PromotedRuns.PromotedInPlace | recapn/src/ptr.rs:3880-3937 | After any such run, promoting any struct leaves the root meaning its old tree with that one struct enlarged, and the run can go on from there |
| PromotedRuns.ListPromotedInPlace | recapn/src/ptr.rs:4051-4115 | After any such run, promoting any list leaves the root meaning its old tree with that one list in its new size |
| Comparing.Comparison.CmpPtr | recapn/src/ptr.rs:5673-5700 | On two arbitrary messages, limiters and all: the recursion terminates with the limiter of one side as its measure, and its outcome and what it charges are those of the walk through both pointers |
| Comparing.Comparison.CmpSection | recapn/src/ptr.rs:5756-5774 | Pointers are compared pairwise, up to the first pair that is unequal or fails |
| Comparing.Comparison.CmpList | recapn/src/ptr.rs:5776-5888 | Counts, then element sizes, then bits, bytes, pointers or structs of two lists |
| Walked.PairMeans | recapn/src/ptr.rs:5673-5888 | Without limiters the walk through two pointers with a meaning ends with the comparison of the meanings |
| WalkLimits.MeaningsCompared | recapn/src/ptr.rs:5673-5888 | Where both pointers have a meaning the outcome is the comparison of the meanings, or a limiter ran out; and a limiter that has the words of its side does not |
| WalkLimits.PairFree | recapn/src/ptr.rs:5673-5888 | On arbitrary words limiters only refuse, and limiters that have the words of their sides change nothing and are charged no more |
| WalkLimits.UnreadableIsAnError | recapn/src/ptr.rs:5673-5700 | A pointer that cannot be read is the error of the comparison, the first one before the second |
| Comparing.CopyAndCompare | recapn/src/ptr.rs:5673-5888 | On the words: copy, and if there was no error run the comparison of the source with the destination, in either order: where the copy can be read back, unequal exactly when a capability became null, else containing capabilities exactly when there are some, else equal |
| Comparing.CompareCopy | recapn/src/ptr.rs:5673-5888 | The comparison itself, of a source that was copied without errors with any words: it ends, for the source is not cyclic then, and where the words mean the tree that was taken it has the stated outcome, in either order |
| Comparing.CopyThenCompare | recapn/src/ptr.rs:5673-5888 | What a copy without errors took has the stated outcome against the meaning of its source, null roots included |
| Comparing.CopyOfNull | recapn/src/ptr.rs:6092-6113 | The copy of a null root is the empty struct |
| Equality.CopyCompares | recapn/src/ptr.rs:5673-5888 | The same for the tree itself and its renaming, through all kinds of objects |
| EqualityMeaning.CmpSymmetric | recapn/src/ptr.rs:5673-5888 | Comparison does not depend on the order of its arguments |
| EqualityMeaning.UnequalIsDifferent | recapn/src/ptr.rs:5673-5888 | For all trees, what is unequal is not alike: not the same shapes, elements and compared bits, whatever the capability indices; and exactly what is not alike is unequal where the comparison overlooks nothing: no null against a struct without data, no structs or struct lists that differ in pointer count alone |
| EqualityMeaning.ListsCompare | recapn/src/ptr.rs:5801-5851 | Two lists of 1, 2, 4 or 8-byte elements of one count are unequal if and only if some element below the count differs, read out of its word by its index; two bit lists if and only if a bit differs that is in a whole byte or among the upper count % 8 of the last one |
| EqualityMeaning.UncappedIsAlike | recapn/src/ptr.rs:5673-5888 | Trees that are the same up to capability indices are alike, and where lists have no padding only those are |
| EqualityMeaning.ThroughNothing | recapn/src/ptr.rs:5735-5773 | Both of two structs of one pointer equal the empty struct whatever they hold, and each other exactly as what they hold |
| EqualityMeaning.NotTransitive | recapn/src/ptr.rs:5735-5773 | Equality is not transitive: three trees, of which the outer two are unequal and both equal the one between |
| EqualityMeaning.NullEqualsNoData | recapn/src/ptr.rs:5673-5700 | A null pointer equals a struct without data, whatever its pointers hold |
| EqualityMeaning.ExtraPointers | recapn/src/ptr.rs:5735-5773 | A struct equals one that lacks its pointer |
| EqualityMeaning.EmptyComposites | recapn/src/ptr.rs:5853-5885 | Empty struct lists are equal whatever the size of their structs |
| EqualityMeaning.ExtraPointersInLists | recapn/src/ptr.rs:5853-5885 | Struct lists are equal that differ in the pointers of their structs |
| EqualityMeaning.PaddingIgnored | recapn/src/ptr.rs:5801-5851 | Lists of bytes are equal that differ in their padding |
| EqualityMeaning.PartialBytes | recapn/src/ptr.rs:5801-5829 | Of the last byte of a bit list the wrong end is compared: two lists that differ are equal, two that differ in padding only are not |
| Canonical.CanonDecides | recapn/src/ptr.rs:6102-6117 | The canonical form is the same if and only if the trees have the same meaning up to zero words and null pointers at the ends of structs |
| Canonical.CanonIdempotent | recapn/src/ptr.rs:6102-6117 | A canonical form is its own canonical form |
| Canonical.TrimmedIsUnique | recapn/src/ptr.rs:6510-6525 | Data, pointers and trimmed ends determine a struct |
| CanonicalCopy.CanonicalMachine.CanonicalSize | recapn/src/ptr.rs:6510-6525 | The size without the null words at the end of either section |
| CanonicalCopy.CanonicalMachine.CopyPtr | recapn/src/ptr.rs:6085-6182 | A canonical copy writes the canonical form, and succeeds exactly when no allocation of it fails |
| CanonicalCopy.SameWordsExactly | recapn/src/ptr.rs:6085-6162 | Canonical copies into fresh segments of one size are word for word identical if and only if the sources have the same meaning |
| CanonicalCopy.CopyingAgainChangesNothing | recapn/src/ptr.rs:6085-6162 | The canonical copy of a canonical copy is the same words, and both mean the same |
| CanonicalCopy.CopyCanonical | recapn/src/ptr.rs:6085-6162 | With room for the canonical form, a copy into a fresh segment succeeds and gives those words |
| Channels.NoCycle | recapn-channel/src/mpsc.rs:479-548 | Following forward links from a channel never comes back to it |
| Channels.FollowEnds | recapn-channel/src/mpsc.rs:870-885 | Following links ends at the most resolved channel, within as many links as there were forwards |
| ChannelRuns.ForwardingIsAForest | recapn-channel/src/mpsc.rs:479-548 | After any run of operations forwarding is acyclic and ends at a channel that is not forwarded |
| ChannelRuns.ExactlyOnePlace | recapn-channel/src/mpsc.rs:257-665 | After any run every accepted item is in exactly one place: queued, received, answered with an error once, or, for events only, discarded |
| ChannelRuns.FirstSentFirstReceived | recapn-channel/src/mpsc.rs:479-604 | After any run, across any number of forwards, what was received of a sender is an initial part of what it sent, in order, and what waits at its root is the final part |
| ChannelRuns.RunIsLater | recapn-channel/src/mpsc.rs:782-796 | Resolutions are final: a forwarded, failed or dropped channel never changes again, and nothing is taken back from history |
| ChannelRuns.ForwardReturned | recapn-channel/src/mpsc.rs:479-518 | A forward is given back exactly when the sender leads to the receiver's own channel, and then nothing has changed |
| ChannelRuns.ForwardJoins | recapn-channel/src/mpsc.rs:518-548 | After a forward every sender of either channel leads to the other one, no other sender has moved, the items follow those that were there, and a waker is woken only if items moved |
| Forwards.AnswerDecides | recapn-channel/src/mpsc.rs:257-297 | A send is accepted to the end of the queue, or changes nothing, as the resolution of the channel it leads to says |
| Forwards.ClosedForGood | recapn-channel/src/mpsc.rs:607-665 | After a channel was closed with an error, every send that leads there is refused with that error, whatever runs later |
| Forwards.DroppedForGood | recapn-channel/src/mpsc.rs:668-677 | After its receiver was dropped, every send that leads there is refused for that reason, whatever runs later |
| Forwards.ForwardToClosed | recapn-channel/src/mpsc.rs:479-487 | A forward to a channel that was closed: every waiting request is answered once with its error, nothing waits any more, and every sender is refused with the error from then on |
| Forwards.ForwardToDropped | recapn-channel/src/mpsc.rs:479-487 | A forward to a channel whose receiver was dropped: nothing is answered, what waits stays, and every sender is refused for that reason from then on |
| Forwards.ForwardedAlike | recapn-channel/src/mpsc.rs:479-550 | After any forward that is not given back, every sender of the channel is treated as the sender it was forwarded to, whatever runs later |
| ChannelRuns.CloseAnswersAll | recapn-channel/src/mpsc.rs:607-665 | Closing answers every waiting request once with the error, and every later send that leads there is refused |
| ChannelRuns.RefusedForGood | recapn-channel/src/mpsc.rs:257-297 | A sender that was refused once is refused for good: whatever runs later, nothing is ever accepted through it |
| ChannelRuns.AcceptedForGood | recapn-channel/src/mpsc.rs:257-297 | What was accepted stays accounted for: whatever runs later, it waits where its sender leads by then, or was received, answered with an error or discarded |
| ChannelRuns.WakerIsKept | recapn-channel/src/mpsc.rs:569-597 | No wakeup is lost: a registered waker stays until it is woken, the receiver polls again or the channel is resolved, and while it is there nothing is waiting |
| Deliveries.TakesOldest | recapn-channel/src/mpsc.rs:569-604 | Receiving and polling take the oldest item, and leave every other queue, sender and record alone |
| Deliveries.NothingThere | recapn-channel/src/mpsc.rs:569-604 | With nothing to receive, trying to changes nothing, and polling leaves the waker that polled last |
| Deliveries.ReceivesAll | recapn-channel/src/mpsc.rs:600-604 | As many attempts as items wait receive all of them in order |
| Deliveries.WokenThenServed | recapn-channel/src/mpsc.rs:569-597 | Whoever polls in vain is woken by the next accepted item, exactly once, and then receives it |
| Deliveries.NewChannelAnswers | recapn-channel/src/mpsc.rs:914-998 | A new channel is empty, its first sender leads to it, a broken one refuses with its error, and only one that is neither weak nor broken can be received from |
| Deliveries.SendersAlike | recapn-channel/src/mpsc.rs:237-246 | A clone leads where its sender leads, and a resolved sender refers to where it leads at once |
| ChannelRuns.BatchesAt | recapn-channel/src/mpsc.rs:638-664 | The position at which closing answers an item: batches of 32 in order, each from its end |
| ChannelRuns.AnswersInOrder | recapn-channel/src/mpsc.rs:638-664 | Distinct items are answered in the order of the queue if and only if there is at most one |
| ArrayVecs.ArrayVec.Push | recapn-channel/src/util/array_vec.rs:29-34 | An item is appended in place |
| ArrayVecs.ArrayVec.ForEach | recapn-channel/src/util/array_vec.rs:37-43 | The items are visited from the last to the first, and none is left |
| ChannelHeap.Exchange.MostResolved | recapn-channel/src/mpsc.rs:870-885 | The loop over channel objects ends at the object of the root |
| ChannelHeap.Exchange.Send | recapn-channel/src/mpsc.rs:257-297 | On channel objects: the step of sending, the refusal with the terminal state, and the waker to wake |
| ChannelHeap.Exchange.SendEvent | recapn-channel/src/mpsc.rs:300-329 | On channel objects: the same for events, which are never finished |
| ChannelHeap.Exchange.ForwardTo | recapn-channel/src/mpsc.rs:479-550 | On channel objects: the step of forwarding in all its cases, and whether the receiver is given back |
| ChannelHeap.Exchange.PollRecv | recapn-channel/src/mpsc.rs:569-597 | On channel objects: the oldest item, or the waker is registered; the answer for a closed receiver never arises |
| SenderCounts.NeverCloses | recapn-channel/src/mpsc.rs:765-770 | In every history of clones and drops, in which no more senders are dropped than there are, the test of the old count against 0 fails, also when the last sender is dropped, so senders never close a receiver |
| SenderCounts.LastSenderGone | recapn-channel/src/mpsc.rs:765-770 | The drop of the only sender: none is left, and the channel is not closed |
| SenderCounts.SenderCount.RemoveSender | recapn-channel/src/mpsc.rs:765-770 | In place: one sender less, and the channel is not closed |
| ChannelHeap.Exchange.TryRecv | recapn-channel/src/mpsc.rs:600-604 | On channel objects: the oldest item, if there is one |
| ChannelHeap.Exchange.Close | recapn-channel/src/mpsc.rs:607-665 | On channel objects: the step of closing, and the answers in the order they are given |
| ChannelHeap.Exchange.DrainWithError | recapn-channel/src/mpsc.rs:638-664 | The loop that takes out up to 32 items at a time and answers them from the end empties the queue and answers in batch order |
| ChannelHeap.Exchange.DropReceiver | recapn-channel/src/mpsc.rs:668-677 | On channel objects: a dropped receiver ends the channel and leaves its queue |
| ChannelHeap.Exchange.ResolveInPlace | recapn-channel/src/mpsc.rs:365-368 | On channel objects: the sender refers to the most resolved channel, which changes nothing it leads to |
| ChannelHeap.Exchange.New | recapn-channel/src/mpsc.rs:914-998 | On channel objects: a new channel, open, weakly held or broken, with a first sender |
| ChannelHeap.Exchange.CloneSender | recapn-channel/src/mpsc.rs:237-246 | On channel objects: another sender for the same channel, which has sent nothing yet |
| Pipeline.NobodyIsStranded | recapn-channel/src/request.rs:277-305 | Under every interleaving an inserted channel that is alive is in the map, with the responder, or was handed over, and in only one of these; once the flag is set the map is empty and it was handed over exactly once |
| Pipeline.StepLeavesLess | recapn-channel/src/request.rs:277-305 | Whatever is scheduled, every step of the responder and of a call that was made leaves strictly less to do, and a new call adds ten steps |
| Pipeline.NeverStuck | recapn-channel/src/request.rs:277-305 | Until the flag is set the responder can go on, or waits for the call that holds the lock, which can |
| Pipeline.SchedulesEnd | recapn-channel/src/request.rs:277-305 | Every schedule with finitely many calls comes to an end, and where nobody can go on the flag is set |
| Pipeline.ResponderFinishes | recapn-channel/src/request.rs:277-305 | From every reachable state the responder finishes, waiting only for the call that holds the lock; then the map is empty and every live inserted channel was handed over exactly once |
| Pipeline.KeyIsKept | recapn-channel/src/request.rs:782-816 | A call returns what is under the key it was made with, whether it resolves directly or with a channel |
| Pipeline.FlagIsFinal | recapn-channel/src/request.rs:277-305 | Once the flag is set it stays set, the map stays empty, and nothing is inserted or handed over any more |
| Pipeline.ReturnedWasInserted | recapn-channel/src/request.rs:782-816 | A channel that a call returned before the flag was set is one of those that are handed over, under the key asked for |
| Pipeline.DirectIsAnswered | recapn-channel/src/request.rs:503-532 | A call that resolves directly finds the pipeline written |
| Pipeline.SameKeySameChannel | recapn-channel/src/request.rs:795-812 | Over any run: two calls for one key that returned live channels hold the same one, unless the responder took the one made first; before the answer they always do |
| Pipeline.SecondChannel | recapn-channel/src/request.rs:277-305 | A run in which, between two rounds of the responder, a second channel is made for a key while the first one lives |
| Pipeline.RunSound | recapn-channel/src/request.rs:277-305 | Mutual exclusion on the map, the flag protocol and the place of every entry hold in every reachable state |
| Segments.FromStream | recapn/src/io.rs:164-184 | The start positions are the sums of the leading lengths; the first length that is too large, or the first sum beyond the limit, is the error |
| Segments.IndexAgreesWithScan | recapn/src/io.rs:116-130 | The index and the scan of the lengths agree on every segment, except where the scan indexes past the data: exactly the empty segments behind the last one that is not |
| Segments.EmptyLastSegment | recapn/src/io.rs:116-130 | Of the lengths 1, 0 the index has the last segment and the scan indexes past the data |
| Segments.SegmentsPartition | recapn/src/io.rs:187-219 | The segments, laid end to end, are the words of the message, each with the length the table gave, and there are no others |
| Segments.ReadFromSlice | recapn/src/io.rs:334-347 | The segments followed by the remainder are the content; the message is read exactly if all lengths are accepted and together fit the content |
| Slots.SlotTable.Push | recapn-rpc/src/connection.rs:222-235 | The least id not in use is given out, no live id is given out twice, and the table maps it to the value |
| Slots.SlotTable.Remove | recapn-rpc/src/connection.rs:245-251 | The value comes back exactly if the id was live, and the id is free again once |
| Slots.SlotTable.Len | recapn-rpc/src/connection.rs:237-239 | The number of slots less the number of free ones is the number of live entries |

## Left out

- TryCopyFrom: the destination pointer is null before the copy; clearing what it referred to is not modelled, because clearing composite lists takes the list pointer's word count as the element count (`recapn/src/ptr.rs:5580-5592`).
- TryCopyFrom: source and destination are different messages; capability tables are an abstract map from index to index, null or error, and the growth of the destination table is not modelled.
- CopyAndCompare: the outcome of the comparison is stated where the copy reads back, which is if and only if it fits (`AllFit`).
- TryCopyFrom: what a copy with errors reads back as is stated for trees whose objects fit (`AllFit`); without errors the destination means the taken tree if and only if they do.
- TryCopyFrom: where an allocation failed the number of errors is stated as an upper bound and for sources without faults; under a limiter with too few words it is not stated.
- ObjectRefused: a list that fills a whole segment takes two allocations; when both are granted is stated (`ObjectTakes`), when they are refused is not.
- ReadsExactly: which error a refused pointer gets is stated for the limiter only (`ReadingMetered`).
- CmpPtr: where no side has a limiter, one of them must not be cyclic, since otherwise the comparison need not end; the copy without a limiter is stated for sources that are not cyclic.
- CopyCanonical: composite lists are left out, because their canonical size is computed at the pointer instead of the list (`recapn/src/ptr.rs:6123-6128`); so are capabilities, which are an error in canonical form.
- CopyCanonical: the error handler gives up on the first error.
- PromotionPreserves: the struct is held by one pointer only, and nothing it refers to looks at the pointer, its pads or the old body (`StructIsHeld`: that is how every struct of a message that was built is held). Runs go on after the promotion of a struct; they end with the promotion of a list, and where a promotion is refused.
- ListPromotionPreserves: the same for lists (`ListAsHeld`). A promoted list that would fill a segment with structs wider than a word, or whose 32-bit word count wraps, is left out; one that is too large is refused.
- ToListMutInner: that the pointer refers to a list at all is required; `build_list` errors are those of the reader.
- ReaderSound: readers without a segment, whose pointers are unchecked, are left out, and so is the expected element size of typed list reads, whose `upgradable_to` from structs to plain elements always ends false (`recapn/src/ptr.rs:917-940`).
- BuiltIsReadable: orphans and external segments are left out: adoption writes the pad contents to the destination pointer (`recapn/src/ptr.rs:4444-4446`), and external segments get an id one too low (`recapn/src/arena.rs:421`).
- ComputeTargetSize: the running total is unbounded; the source adds in 64 bits and would wrap.
- Range copies and copies into upgraded lists (`recapn/src/ptr.rs:6221-6438`): the former slice `start..len`.
- SenderCount: the abort at the largest count, and waiting for the channel to close.
- ExactlyOnePlace: each public operation of `mpsc` is one step; finer interleavings are not claimed, because after resolving a second time `resolve_and_lock` and `forward_to` keep the lock of the channel found first (`recapn-channel/src/mpsc.rs:904`, `recapn-channel/src/mpsc.rs:518`).
- PollRecv: two wakers are the same if their numbers are; futures, tasks and the wait list for resolutions are left out.
- DropReceiver: what is still queued in a dropped channel stays there; that memory is freed with the channel is not modelled.
- Parents of queued requests, and removing a finished request from the middle of a queue, which is unfinished (`recapn-channel/src/request.rs:246`).
- NobodyIsStranded: `respond` is the only resolver; `set_pipeline` resolves through a response that is not written yet (`recapn-channel/src/request.rs:561`). Loads and stores of the flag are sequentially consistent.
- The limit of 32-bit ids of the export table, at which it panics; otherwise it is `FreeVec`.
- Packing, the parsing of stream tables, I/O loops, typed wrappers, code generation beyond `ptr_to_slice`, and RPC message handling.
