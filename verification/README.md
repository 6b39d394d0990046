# Verified model of nfsembed

A Dafny model of the parts of the `nfsembed` NFSv3 server library where correctness is hard to see from one function at a time, with proofs about every input, every run or every reachable state.

| part | files | form |
|---|---|---|
| Duplicate-request replay cache | `ReplayModel`, `ReplayLemmas`, `ReplayLaws`, `ReplayFields`, `ReplayCache`, `ReplayRuns`, `ReplayTheorems`, `ReplayReasons`, `ReplayProgress`, `Replies` | a class over four linked structures refines an abstract cache without tombstones, whose operations are then said entry by entry in terms of times, sizes and positions; a transition system with an event history gives the properties over runs |
| Path and ID index of the mirror file system | `FsIndex`, `FsMap`, `FsRuns` | a class over four maps refines a map from live IDs to paths |
| Record marking (section 11 of RFC 5531) | `RecordFormat`, `RecordWriter`, `RecordReader`, `BigEndian` | loops over sinks and sources with arbitrary short writes, against a pure wire format |
| Argument decoding (section 4.10 of RFC 4506) | `Xdr`, `XdrItems`, `Arguments`, `ArgumentsCanonical`, `ArgumentsLayout`, `Decoding` | a decoder class refines pure readers, which are inverse to pure writers, which in turn write the fields that RFC 1813 lists |
| Results, directory listings, paging (RFC 1813) | `Results`, `Encoding`, `ResultsReadBack`, `ReadDirTrimming`, `ReadDirSelection`, `ReadDirTheorems`, `DemoListing`, `Paging`, `WirePaging` | an encoder class refines pure encodings, which a client's reader inverts; two ways of fitting a listing are compared |
| Limits and admission | `Limits`, `Principals`, `Calls`, `AdmissionModel`, `AdmissionSteps`, `AdmissionTheorems` | arithmetic over configurations; a transition system over any number of requests and connections |

`Sequences` holds what several parts share.

How the model stands to the code:

- The two lock phases of `complete` are separate steps, so a reuse of the XID can fall between them. `begin` reads its clock before it takes the lock, so its time is arbitrary; `complete` reads it under the lock, so completion times do not go backwards.
- Fingerprints are compared for equality only. Handles are byte strings. What the allocator adds to a requested capacity is a parameter of compaction.
- A path component is a spelling together with what it folds to, and keys factor through the folding; on Unix both are the identity.
- A sink accepts any number of bytes per write, chosen by an arbitrary function; zero is the write error. A source ends wherever it ends.
- In the admission model a deadline that passes while a request waits for its leader or its permit turns it into an error reply. Beyond that any request may be dropped at any moment, which stands for the other deadlines, disconnects and protocol errors; an execution is only ever detached. Semaphores serve their waiters in order of arrival and grant a request's whole amount at once.
- Every configuration field and byte count is a mathematical integer; the places where the source saturates or where a 32-bit length matters are written out.

Three properties one might expect are false of the code, and the exact condition is proved instead:

- `move_prefix` does not always keep the IDs below its source: `FsRuns.MoveOntoParentForgets` gives an input and `FsRuns.MoveKeepsSubtree` the condition.
- `move_prefix` does not always take a remembered verifier along: `FsRuns.OrphanedVerifierStays` gives an input and `FsRuns.VerifierFollowsLiveId` the condition.
- The budgeted and the plain record reader disagree on some inputs when no fragment is allowed, the record limit exceeds 32 bits, or the budget is closed: `RecordReader.BudgetedAgreesExactly`.

## Model

| member | source | states |
|---|---|---|
| ReplayTheorems.AtMostOnce | src/replay/cache.rs:121-257 | Over every run: two executions granted for the same call on the same request have between them a cancellation, a reply that was not retained, an eviction, an expiry, or an execution of a different call under that XID. |
| ReplayReasons.ReexecutionHasReason | src/replay/cache.rs:121-349 | The same with causes: the event between the two executions was called for by the times and sizes at that moment, as `ReleaseHasReason` says. |
| ReplayReasons.ReleaseHasReason | src/replay/cache.rs:121-349 | Over every run: a reply expires only at an arrival the time to live or longer after it was stored; an arrival evicts only when every slot is taken, and then the reply that completed first; a completion evicts only replies it does not fit beside; a reply is lost only if out of date or too large; an execution is cancelled only by its owner. |
| ReplayReasons.ReplayIsFresh | src/replay/cache.rs:128-152 | Over every run: a replay goes to an arrival of the same call less than the time to live after the second lock stored the reply. |
| ReplayReasons.ArrivalEvictsOne | src/replay/cache.rs:157-159 | No arrival evicts more than one reply. |
| ReplayReasons.CompletedWasStored | src/replay/cache.rs:218-225 | Every cached reply was stored by its own completion, at the time it carries. |
| ReplayProgress.RunsGoOn | src/replay/cache.rs:121-257 | What can happen next follows from the history: calls arrive at any time; exactly the executions that were granted and have not ended can be given up or prepared, and once prepared, stored, no earlier than any completion before; exactly the duplicates that joined can disconnect. |
| ReplayProgress.EveryRunCanRest | src/replay/cache.rs:184-257 | Every run can be continued, by ending executions only, until nothing executes and every connected duplicate has its answer. |
| ReplayTheorems.DecisionAnswersItsCall | src/replay/cache.rs:129-182 | Every grant, wait, replay and refusal is about exactly the request and fingerprint that were asked, with no other call or decision in between. |
| ReplayTheorems.EveryCallIsDecided | src/replay/cache.rs:121-182 | Every call that was asked is decided before the next one is asked. |
| ReplayTheorems.ReplayIsFaithful | src/replay/cache.rs:121-152 | Over every run: a replay answers exactly the request and fingerprint that were asked, byte for byte with what the generation granted for that call completed with, and that generation was not cancelled, expired, evicted or displaced by another call between its grant and the replay. |
| ReplayTheorems.EndsOnce | src/replay/cache.rs:69-88 | A generation completes or is cancelled at most once. |
| ReplayTheorems.AnswerComesFromOwnEntry | src/replay/cache.rs:129-147 | A waiter is answered only by the end of the generation it joined, after joining it; that generation is an execution of the waiter's own call, live and unfinished at the time. |
| ReplayTheorems.AnsweredAtMostOnce | src/replay/cache.rs:236-256 | No waiter is answered twice, whichever generations end. |
| ReplayTheorems.NoWaiterIsLost | src/replay/cache.rs:82-88 | Once a lease is gone, every waiter that joined it and still listens has been answered. |
| ReplayTheorems.RetentionIsExact | src/replay/cache.rs:185-235 | A generation that is latest at the second lock is cached if and only if its charge fits the byte limit: neither the first-phase check nor a full cache turns it away, and the cached wire bytes are the reply's. |
| ReplayTheorems.StaleCompletionIsInert | src/replay/cache.rs:198-239 | Completing an out-of-date generation removes its own entry and changes nothing else. |
| ReplayTheorems.StaleCancellationIsInert | src/replay/cache.rs:241-257 | Cancelling an out-of-date generation removes its own entry and changes nothing else. |
| ReplayTheorems.StepNoRevival | src/replay/cache.rs:320-325 | No step makes a generation latest except the one that creates it. |
| ReplayTheorems.StaleForever | src/replay/cache.rs:185-257 | However a run continues, a superseded generation is never latest and never cached again. |
| ReplayRuns.StepKeepsInv | src/replay/cache.rs:121-257 | Each step of the system (begin, first and second phase of complete, cancel, disconnect) keeps the whole invariant and leaves no call undecided. |
| ReplayRuns.RunKeepsInv | src/replay/cache.rs:97-103 | Every reachable state: retained charges sum to at most the limit, entries fit the capacity, every `latest` record names a present entry that was granted and not released since, completed entries are latest, in-flight entries match unfinished leases one to one, and the event history justifies every entry and waiter. |
| ReplayTheorems.EveryReachableCache | src/replay/cache.rs:97-103 | The cache part of that, spelled out: entry count and retained bytes within their limits, records and queue in agreement with the entries, the queue without repetition and in completion order, leases and executions the same. |
| ReplayLaws.BeginDecides | src/replay/cache.rs:129-152 | A call is answered from the cache exactly when it is the newest of its request and its reply, if any, is younger than the time to live; it is answered by that entry and starts the next generation otherwise. |
| ReplayLaws.BeginKeepsExactly | src/replay/cache.rs:121-182 | An arrival removes an entry exactly when its reply is too old, is displaced by a new execution on the same request, or completed first in a cache with every slot taken; it adds only the new execution and changes only the waiters of the one it joins. |
| ReplayLaws.BeginRecords | src/replay/cache.rs:121-182 | `latest` and the queue lose exactly what the entries lost, in order, and the request's own record is that of the new execution. |
| ReplayLaws.CompleteKeepsExactly | src/replay/cache.rs:197-235 | A completion stores the newest call's reply if its charge fits, evicts for it exactly the replies it has no room beside, oldest first, and otherwise drops it and evicts nothing. |
| ReplayLaws.CompleteRecords | src/replay/cache.rs:197-235 | `latest` and the queue follow the entries; a stored reply goes to the end of the queue. |
| ReplayLaws.CancelKeepsExactly | src/replay/cache.rs:241-257 | A cancelled execution goes and takes nothing with it. |
| ReplayLaws.CancelRecords | src/replay/cache.rs:241-257 | Its own `latest` record goes with it and no other; the queue stays. |
| ReplayLaws.BytesAreTheSum | src/replay/cache.rs:219-219 | Retained bytes are none without a reply, and each reply counts with its own charge. |
| ReplayLaws.ExpireIsExact | src/replay/cache.rs:275-295 | Expiry removes a reply if and only if it is the time to live old or older, or there is none; everything else stays as it was. |
| ReplayLemmas.BeginWellFormed | src/replay/cache.rs:121-182 | Every outcome of `begin` keeps the cache invariant. |
| ReplayLemmas.CompleteWellFormed | src/replay/cache.rs:197-235 | The second phase of `complete` keeps the cache invariant. |
| ReplayLemmas.CancelWellFormed | src/replay/cache.rs:241-257 | `cancel` keeps the cache invariant. |
| ReplayLemmas.RefusalIsExact | src/replay/cache.rs:156-159 | `begin` refuses if and only if the call is not known and, after expiry, every slot is an execution in flight; a refusal removes nothing but expired replies. |
| ReplayLemmas.ExpireAllIsComplete | src/replay/cache.rs:275-295 | A second scan at the same time finds nothing more, and only completed entries are candidates; `ReplayLaws.ExpireIsExact` says which. |
| ReplayLemmas.YoungFront | src/replay/cache.rs:281-283 | A young front of the queue means nothing in the cache has expired, which is why stopping there is right. |
| ReplayLemmas.OverflowIsExact | src/replay/cache.rs:212-217 | The number of evictions makes room for the new charge, and no smaller number does. |
| ReplayLemmas.FullOfExecutions | src/replay/cache.rs:157-159 | No completed entry is left exactly when the in-flight entries are all entries. |
| ReplayCaching.ReplayCache.constructor | src/replay/cache.rs:106-119 | A new cache is valid and empty. |
| ReplayCaching.ReplayCache.Begin | src/replay/cache.rs:121-182 | Updates the four linked structures in place to what the abstract `begin` gives, same decision, invariant kept. |
| ReplayCaching.ReplayCache.StartGeneration | src/replay/cache.rs:156-182 | The part of `begin` after the lookup: frees a slot and inserts a fresh generation, or refuses. |
| ReplayCaching.ReplayCache.FindSlot | src/replay/cache.rs:156-159 | Displaces the reply of an older use of the XID and, if full, the earliest completion; fails exactly when nothing completed is left. |
| ReplayCaching.ReplayCache.Prepare | src/replay/cache.rs:186-195 | First phase of `complete`: exactly the replies that fit and are, when a copy is needed, still latest and in flight. |
| ReplayCaching.ReplayCache.Complete | src/replay/cache.rs:197-239 | Second phase of `complete`: new state equals the abstract one and the waiters to be answered are exactly those of the entry. |
| ReplayCaching.ReplayCache.Retain | src/replay/cache.rs:211-231 | A charge within the limit is always retained, after evicting the fewest oldest entries that make room; the queue stays within max(64, 2*capacity). |
| ReplayCaching.ReplayCache.MakeRoom | src/replay/cache.rs:212-216 | The eviction loop ends with room for the charge and has evicted exactly the minimal oldest prefix. |
| ReplayCaching.ReplayCache.Store | src/replay/cache.rs:217-229 | Inserts the completed entry at the end of the queue and keeps the queue bound. |
| ReplayCaching.ReplayCache.Cancel | src/replay/cache.rs:241-257 | New state equals the abstract one and the returned waiters are those of the entry; the invariant survives if and only if the key is not that of a completed entry, which no lease holds. |
| ReplayCaching.ReplayCache.Expire | src/replay/cache.rs:275-295 | The front-only scan with tombstones removes exactly what a scan of the whole cache removes. |
| ReplayCaching.ReplayCache.EvictOldestCompleted | src/replay/cache.rs:341-349 | Evicts exactly the earliest live completion, skipping tombstones; false exactly when there is none. |
| ReplayCaching.ReplayCache.RemoveCompletedForRequest | src/replay/cache.rs:297-309 | Removes the completed reply of the request's latest use, leaving a tombstone. |
| ReplayCaching.ReplayCache.RemoveCompleted | src/replay/cache.rs:311-318 | For any key, entry, charge and own `latest` record go together. |
| ReplayCaching.ReplayCache.CompactCompletionOrder | src/replay/cache.rs:327-339 | Changes no live content and bounds the queue by max(64, 2*entries). |
| FsIndex.KeyIsComponentwise | examples/mirrorfs.rs:818-825 | A path has a key if and only if each of its components has one, and then it is made of theirs in order. |
| FsMaps.FsMap.constructor | examples/mirrorfs.rs:54-64 | The root alone, indexed both ways. |
| FsMaps.FsMap.Intern | examples/mirrorfs.rs:85-102 | Returns the one live ID with an equal path, as a linear search of all live paths would, else a fresh ID; refuses exactly a path with a component that has no key; index, keys and buckets stay in agreement. |
| FsMaps.FsMap.RemoveIndexedId | examples/mirrorfs.rs:104-114 | Removes one ID from its bucket and drops the bucket when empty. |
| FsMaps.FsMap.ForgetPrefix | examples/mirrorfs.rs:116-143 | Forgets exactly the IDs and verifiers at or below the prefix, or refuses exactly a prefix with a keyless component and changes nothing. |
| FsMaps.FsMap.ForgetAll | examples/mirrorfs.rs:130-135 | Removing the collected IDs in any order leaves the index consistent. |
| FsMaps.FsMap.MovePrefix | examples/mirrorfs.rs:145-182 | Exact subtree renaming: IDs under `from` keep ID and suffix under `to`, IDs under a different `to` are forgotten, all others unchanged, verifiers of moved IDs follow; refused exactly for a keyless component; all structures stay in agreement. |
| FsMaps.FsMap.MoveAll | examples/mirrorfs.rs:163-180 | Moving the collected IDs in any order gives the same result and loses no verifier. |
| FsMaps.FsMap.MoveOne | examples/mirrorfs.rs:163-180 | One ID moves in all four maps, its verifier with it. |
| FsMaps.FsMap.TakeExclusiveVerifier | examples/mirrorfs.rs:200-219 | Returns what a lookup would and removes exactly that verifier. |
| FsMaps.FsMap.ExclusiveVerifier | examples/mirrorfs.rs:184-191 | The lookup, or an error exactly for paths with a keyless component. |
| FsMaps.FsMap.RememberExclusiveVerifier | examples/mirrorfs.rs:193-198 | Afterwards the path has this verifier and every other path the one it had; refused exactly for a keyless component. |
| FsMaps.MovedPathsDiffer | examples/mirrorfs.rs:145-182 | No two live IDs share a path after a move, whichever path contains the other and whatever the case folding. |
| FsRuns.StepKeepsOk | examples/mirrorfs.rs:85-182 | Each operation keeps paths distinct and IDs below the counter. |
| FsRuns.RunKeepsOk | examples/mirrorfs.rs:85-182 | The same in every state of every run of intern, forget and move. |
| FsRuns.NeverReused | examples/mirrorfs.rs:96-101 | Over any run a forgotten ID never comes back. |
| FsRuns.InternIsStable | examples/mirrorfs.rs:85-95 | Interning an equal path returns the ID that holds it and changes nothing. |
| FsRuns.NothingIsRefused | examples/mirrorfs.rs:818-820 | With a key for every component, as on Unix, no operation of any run is refused and `intern` leaves an ID that holds an equal path. |
| FsRuns.InternIsExact | examples/mirrorfs.rs:85-102 | `intern` answers with the ID of an equal live path and changes nothing, or hands out the next number under the path given. |
| FsRuns.ForgetIsExact | examples/mirrorfs.rs:116-143 | An ID is forgotten if and only if its path agrees with the prefix component by component. |
| FsRuns.MoveIsExact | examples/mirrorfs.rs:145-182 | What happens to one ID: forgotten at or below a different target, else moved with its own suffix if at or below the source, else left alone. |
| FsRuns.MoveKeepsSubtree | examples/mirrorfs.rs:145-182 | A move keeps every ID at or below its source if and only if the paths are equal, neither contains the other, or nothing live is at or below the inner one. |
| FsRuns.MoveOntoParentForgets | examples/mirrorfs.rs:148-150 | The input on which it does not: moving `a/b` onto `a` forgets what it was to move. |
| FsRuns.VerifierFollowsLiveId | examples/mirrorfs.rs:163-180 | A move takes a remembered verifier to the new path if and only if a live ID that moves has its path; otherwise it stays where it was unless the target covers it. |
| FsRuns.OrphanedVerifierStays | examples/mirrorfs.rs:174-179 | The input on which it does not: a verifier remembered before its path is interned is left behind by a move in between. |
| FsRuns.MoveRoundTrip | examples/mirrorfs.rs:145-182 | Moving there and back restores every ID to an equal path when the target was free and neither path contains the other. |
| RecordFormat.ValidateIsExact | src/rpc/record.rs:206-231 | A length validates if and only if it fits the record limit and that many full fragments can carry it. |
| RecordFormat.ValidateComplaints | src/rpc/record.rs:206-231 | Which error every other length gets. |
| RecordFormat.RefusalIsExact | src/rpc/record.rs:30-69 | What the reader does after any number of good fragments: it fails at the end of the stream, raises the first of five objections that applies to the next fragment, or takes it and is done if it was the last. |
| RecordFormat.ParseComplete | src/rpc/record.rs:30-69 | Every acceptable fragmentation is read, leaving the following bytes. |
| RecordFormat.ParseSound | src/rpc/record.rs:30-69 | Whatever is read was the marked form of an acceptable fragmentation. |
| RecordFormat.RecordRoundTrip | src/rpc/record.rs:30-69 | A record that validates and can be marked is read back exactly, following bytes untouched. |
| RecordWriter.WriteAllSlices | src/rpc/record.rs:299-320 | Through any short writes the sink receives a prefix of the slices' bytes, and all of them on success; with non-zero writes it succeeds. |
| RecordWriter.AdvanceKeepsTheRest | src/rpc/record.rs:312-312 | Advancing the slice list by `n` leaves exactly the bytes after the first `n`. |
| RecordWriter.WriteFragments | src/rpc/record.rs:322-357 | The contiguous writer emits the marked fragments of the record. |
| RecordWriter.AdvanceSegments | src/rpc/record.rs:284-297 | The segment cursor moves over exactly `count` payload bytes, indices in range. |
| RecordWriter.Gather | src/rpc/record.rs:256-275 | Marker and segment pieces of one fragment always fit four slices and hold exactly the fragment's bytes. |
| RecordWriter.WriteSegmentedFragments | src/rpc/record.rs:233-282 | For every split into three segments, every fragment size and every sequence of short writes, emits what the contiguous writer emits for the joined record. |
| RecordWriter.WriteRecordLimited | src/rpc/record.rs:175-182 | Nothing is written for a record that does not validate; otherwise its frames are. |
| RecordWriter.WriteRecordSegmentsLimited | src/rpc/record.rs:186-198 | The same for a segmented record. |
| RecordWriter.WrittenIsReadBack | src/rpc/record.rs:175-198 | Either writer's successful output reads back as the record under the same limits. |
| RecordReader.ReadRecord | src/rpc/record.rs:30-69 | The plain reader does what the parse function of the remaining stream says, at bounded cost. |
| RecordReader.ReadRecordBudgeted | src/rpc/record.rs:76-141 | The budgeted reader does what its parse function says, at bounded cost. |
| RecordReader.AssembleRecord | src/rpc/record.rs:104-140 | The fragment loop after the first marker. |
| RecordReader.BudgetedAgrees | src/rpc/record.rs:76-141 | With a fragment allowed, a 32-bit record limit and the reservation granted, both readers have the same outcome on every input. |
| RecordReader.BudgetedAgreesExactly | src/rpc/record.rs:76-141 | Those conditions are also necessary for agreement on every input. |
| RecordReader.BudgetedRefusals | src/rpc/record.rs:76-103 | Without those conditions it always fails, and with which error: objections to the first marker come first, then a record limit beyond 32 bits, a closed budget, and no fragment allowed. |
| RecordReader.AssemblyCost | src/rpc/record.rs:146-154 | Over any accepted fragment sequence capacity never exceeds the record limit or twice the record, and bytes copied by regrowth stay below twice the limit. |
| Replies.MakeSegmented | src/rpc/reply.rs:30-47 | The wire bytes are prefix, payload and padding in order. |
| Replies.FromVec | src/rpc/reply.rs:161-169 | A reply from an owned buffer has its bytes, needs no copy, and is charged the buffer's whole capacity. |
| Replies.LenIsWireLength | src/rpc/reply.rs:49-55 | The stored length is the length of what reaches the socket. |
| Replies.ReplayStorage | src/rpc/reply.rs:90-131 | Compaction keeps the wire bytes, and the charge is at least their length. |
| Replies.IntoBytes | src/rpc/reply.rs:133-149 | Coalescing keeps the wire bytes. |
| Replies.SameReply | src/rpc/reply.rs:178-187 | Two replies are equal if and only if their wire bytes are, however they are split. |
| Xdr.ReadOpaqueBack | src/rpc/codec.rs:90-98 | An opaque value within the limit is read back with the bytes after it. |
| Xdr.OpaqueIsCanonical | src/rpc/codec.rs:90-98 | Whatever is read was the one canonical encoding, zero padding included. |
| Xdr.OpaqueOutcome | src/rpc/codec.rs:90-98 | What becomes of an announced length and the bytes behind it: over the limit, cut short, padded with a nonzero byte, or exactly that many bytes. |
| Xdr.BoolIsCanonical | src/rpc/codec.rs:62-68 | Only 0 and 1 are booleans. |
| BigEndian.MostSignificantFirst | src/rpc/codec.rs:50-52 | Words are big-endian: appending a byte to a number shifts its bytes to the front. |
| Decoding.Decoder.constructor | src/rpc/codec.rs:31-33 | The cursor starts at the first byte. |
| Decoding.Decoder.Take | src/rpc/codec.rs:43-48 | The next bytes and a cursor moved past them, or truncation. |
| Decoding.Decoder.ReadU32 | src/rpc/codec.rs:50-52 | Refines reading a word off the unread bytes. |
| Decoding.Decoder.ReadU64 | src/rpc/codec.rs:58-60 | Refines reading a double word off the unread bytes. |
| Decoding.Decoder.ReadBool | src/rpc/codec.rs:62-68 | Refines reading a boolean off the unread bytes. |
| Decoding.Decoder.ReadFixed | src/rpc/codec.rs:79-81 | Refines reading a fixed number of bytes. |
| Decoding.Decoder.ReadLength | src/rpc/codec.rs:123-133 | Refines reading a bounded length. |
| Decoding.Decoder.ReadOpaqueSlice | src/rpc/codec.rs:90-98 | Refines reading an opaque value, which is the stretch of the input right after its length word. |
| Decoding.Decoder.ReadOpaque | src/rpc/codec.rs:83-85 | The copying read gives the same value. |
| Decoding.Decoder.Finish | src/rpc/codec.rs:135-141 | Succeeds exactly at the end of the input. |
| Decoding.DecodeArguments | src/nfs3/procedures/mod.rs:221-352 | The decoder, procedure by procedure, returns what the pure decoding function returns, errors included. |
| Decoding.DecodeWriteRequest | src/nfs3/procedures/mod.rs:82-104 | The zero-copy WRITE decode agrees with the copying WRITE decode on every input, errors included. |
| Decoding.DecodeSetAttributes | src/nfs3/procedures/mod.rs:386-395 | Refines the reading of settable attributes. |
| Decoding.DecodeHow | src/nfs3/procedures/mod.rs:249-274 | Refines the reading of the CREATE mode; an exclusive create carries no attributes. |
| Decoding.DecodeNode | src/nfs3/procedures/mod.rs:284-312 | Refines the reading of the MKNOD type, whose device numbers follow the attributes. |
| ArgumentsCanonical.GetBack | src/nfs3/procedures/mod.rs:220-419 | For each of the 22 procedures, decoding the XDR encoding of arguments within the field limits gives them back. |
| ArgumentsCanonical.GetCanonical | src/nfs3/procedures/mod.rs:220-419 | Whatever decodes was the encoding of its result within the field limits. |
| ArgumentsCanonical.DecodeIsCanonical | src/nfs3/procedures/mod.rs:220-419 | `decode` succeeds with a value if and only if the input is the one XDR encoding of that value within the limits and nothing follows it. |
| ArgumentsCanonical.DecodeIsInjective | src/nfs3/procedures/mod.rs:220-419 | Two inputs that decode to the same arguments are equal. |
| ArgumentsLayout.DecodeFollowsLayout | src/nfs3/procedures/mod.rs:220-419 | `decode` accepts a call if and only if its bytes are the fields that RFC 1813 lists for that procedure, in that order and form, within the field limits, and nothing else. |
| Encoding.Encoder.WriteOpaque | src/rpc/codec.rs:186-200 | Appends length, bytes and zero padding, or refuses a length beyond 32 bits. |
| Encoding.EncodeTime | src/nfs3/codec.rs:481-495 | Appends the time, or the error for one the wire cannot carry. |
| Encoding.EncodeAttributes | src/nfs3/codec.rs:431-460 | Appends the attributes, or the first invalid time. |
| Encoding.EncodePostAttributes | src/nfs3/codec.rs:462-468 | Appends optional attributes. |
| Encoding.EncodeWcc | src/nfs3/codec.rs:470-479 | Appends weak cache consistency data. |
| Encoding.EncodeEntry | src/nfs3/codec.rs:358-374 | Appends one directory entry, plain or with attributes and handle. |
| Encoding.EncodeReadDir | src/nfs3/codec.rs:178-206 | Appends a whole listing or its error arm. |
| Encoding.EncodeRead | src/nfs3/codec.rs:69-86 | Appends a READ result. |
| Encoding.EncodeMutation | src/nfs3/codec.rs:88-309 | Appends any mutation result. |
| Encoding.SegmentsAreContiguous | src/server/connection.rs:1204-1221 | Prefix, payload and padding concatenated are the contiguous encoding of the same READ result (section 3.3.6 of RFC 1813). |
| Encoding.ReadSuccessReply | src/server/connection.rs:1204-1221 | The segmented READ reply carries exactly the contiguous encoding and fails exactly where that fails; a payload beyond 32 bits is refused by both. |
| Encoding.CachedReadReply | src/server/connection.rs:1204-1221 | The copy kept for replay carries the same bytes and is charged at least their length. |
| Results.AttributesSize | src/nfs3/codec.rs:431-460 | Encoded attributes take 84 bytes. |
| Results.AttributesOutcome | src/nfs3/codec.rs:481-495 | Attributes can be sent if and only if their three times have 32-bit seconds and less than a second of nanoseconds; the error names the first that has not. |
| Results.PostAttributesSize | src/nfs3/codec.rs:462-468 | Optional attributes take 4 or 88 bytes. |
| Results.WccSize | src/nfs3/codec.rs:470-479 | Weak cache consistency data take 4 or 28 bytes for what was before and 4 or 88 for what is after, 116 at most. |
| Results.MutationSize | src/server/limits.rs:3-3 | No mutation result exceeds 280 bytes, 304 with the reply header. |
| Results.LargestMutation | src/server/limits.rs:92-95 | A CREATE reply with nothing left out takes exactly those 280 bytes. |
| Results.ReadSize | src/server/limits.rs:10-10 | A READ result exceeds its data by at most 107 bytes, 131 with the reply header, and by exactly that with attributes and three padding bytes. |
| ResultsReadBack.AttributesBack | src/nfs3/codec.rs:431-460 | A client reading fattr3 as section 2.5 of RFC 1813 lays it out recovers every field; a device number survives exactly for device nodes. |
| ResultsReadBack.DeviceBack | src/nfs3/codec.rs:447-453 | The device number a client reads is the node's own for a block or character device, zeros for one without, and none for anything else; every other field is the file's. |
| ResultsReadBack.WccBack | src/nfs3/codec.rs:470-479 | A client recovers the weak cache consistency data. |
| ResultsReadBack.ListingBack | src/nfs3/codec.rs:178-206 | A client recovers from a listing's bytes the attributes, verifier, all entries in order, and the end mark (sections 3.3.16 and 3.3.17 of RFC 1813). |
| ResultsReadBack.ReadResultBack | src/nfs3/codec.rs:69-86 | A client recovers a READ result, the count agreeing with the data. |
| ResultsReadBack.MutationBack | src/nfs3/codec.rs:88-309 | A client of any mutating procedure recovers its result, success or error. |
| ResultsReadBack.EnvelopeBack | src/server/connection.rs:1858-1869 | A client recovers transaction and status from the accepted-reply header and finds the result right after it. |
| ReadDirTrimming.Trim | src/nfs3/codec.rs:380-403 | Encoding once and subtracting returns what re-encoding after every removal returns, errors included, and leaves the same listing. |
| ReadDirTrimming.TrimIsLongest | src/nfs3/codec.rs:406-421 | What remains is the longest leading part that fits, not final if anything was dropped; failure means even the empty listing is too large. |
| ReadDirTheorems.TrimInBytes | src/nfs3/codec.rs:380-421 | In plain bytes: what remains is a leading part, not final if anything was dropped, takes at most the limit after its status word unless empty, and with one entry more would take more. |
| ReadDirSelection.EmptySize | src/server/connection.rs:1505-1534 | Directory attributes are kept exactly when the empty listing with them fits. |
| ReadDirSelection.Select | src/server/connection.rs:1496-1600 | The reply is the one fixed by the longest prefix of the page within both byte limits: that listing, TOOSMALL, or the error of the first entry that cannot be encoded. |
| ReadDirTheorems.ChoiceIsUnique | src/server/connection.rs:1496-1600 | That specification determines the reply. |
| ReadDirTheorems.ListingIsLongest | src/server/connection.rs:1535-1599 | A successful listing is the longest prefix within both limits, fits the reply, is final only if the page was and nothing was dropped, and is empty only if the page was. |
| ReadDirTheorems.ListingInBytes | src/server/connection.rs:1496-1600 | In plain bytes: the entries sent are the leading ones of the page with their own attributes and handles, within the reply limit after the status word and, at 24 bytes and the padded name each, within the directory limit; one entry more would break one of the two; directory attributes are given up exactly below 104 bytes. |
| ReadDirTheorems.TooSmallIsExact | src/server/connection.rs:1527-1590 | TOOSMALL is the answer exactly when the limit is below 20 bytes or the first entry breaks a limit. |
| ReadDirTheorems.ForwardAgreesWithBackward | src/server/connection.rs:1496-1600 | Without a directory limit, forward selection equals backward trimming of the same page if and only if the page is empty or its first entry fits; otherwise TOOSMALL stands where trimming leaves an empty non-final listing. |
| DemoListing.DemoFs.constructor | examples/demo.rs:98-117 | The initial tree is well formed. |
| DemoListing.DemoFs.Create | examples/demo.rs:312-365 | Keeps the tree well formed (children exist, are listed once, have distinct names), never makes a name twice, changes nothing on error, and adds the file that `NewFileIsAsRequested` describes. |
| DemoListing.NewFileIsAsRequested | examples/demo.rs:150-180 | Every field of a new file: the requested size in zero bytes, mode, owner, group and times as requested or else the defaults and the time of making, and the verifier of an exclusive creation and no other. |
| DemoListing.GrownIsExact | examples/demo.rs:345-364 | A creation adds the file, changes the list and the change time of its directory, and nothing else. |
| DemoListing.CollectIsComplete | examples/demo.rs:384-397 | In a well-formed tree a page skips no child, and each entry has its own object's ID, name, attributes and handle and the cookie after its place. |
| Paging.Dispatch | src/server/connection.rs:931-1022 | The READDIR and READDIRPLUS arms answer as specified. |
| Paging.EveryAnswer | examples/demo.rs:367-403 | At a cookie the backend handed out, an answer is a listing that continues there, with each child's own attributes and handle exactly for READDIRPLUS, or TOOSMALL, or a failure to encode. |
| Paging.EveryFailure | src/server/connection.rs:931-1022 | The status of every other answer, by number: limit below 20, cookie without the verifier handed out, unknown object, file, in that order. |
| Paging.StaleCookie | examples/demo.rs:375-377 | A cookie without the verifier handed out is refused for an existing directory. |
| Paging.Hint | src/server/connection.rs:946-947 | The backend is asked for as many entries as both limits hold at 32 bytes each, within 1 and 4096. |
| Paging.SessionProgress | examples/demo.rs:367-403 | After any number of replies the client knows exactly the leading children, each once and in order. |
| Paging.SessionVisitsEveryChild | examples/demo.rs:367-403 | A listing followed to its end names every child exactly once in order, with no other child's attributes or handle and, if all calls are READDIRPLUS, with its own, in at most max(1, children) calls, whatever the limits of each call. |
| Paging.SessionNeverStalls | src/server/connection.rs:1584-1599 | No successful page is both empty and non-final. |
| WirePaging.ReceiveBack | src/server/connection.rs:1419-1423 | A client that reads the bytes of a listing reply gets the listing. |
| WirePaging.ReceivedWasSent | src/server/connection.rs:931-1022 | Whatever listing a client reads in an answer to its call is the one the server chose; an error reply never reads as a listing. |
| WirePaging.WireSessionVisitsEveryChild | examples/demo.rs:367-403 | A client that follows cookies through nothing but the bytes of the replies learns of every child exactly once in order, with its own attributes (up to the device number of a non-device) and handle under READDIRPLUS, in at most max(1, children) calls. |
| Limits.ValidateIsAdequacy | src/server/limits.rs:59-120 | `validate` accepts a configuration if and only if it is sane and the record layer carries the largest mutation reply, READ reply, listing and WRITE call. |
| Limits.DefaultsAreValid | src/server/limits.rs:36-57 | The production defaults have the documented values and pass validation. |
| Limits.AlwaysAnswers | src/server/connection.rs:434-444 | Under accepted limits some reply always leaves the server: the encoded one if it fits the record layer, else one in which the client reads its transaction and SYSTEM_ERR. |
| Limits.ReadIsDelivered | src/server/connection.rs:1181-1191 | Every READ success passes the outbound check unchanged, whatever the backend returned. |
| Limits.DispatchRead | src/server/connection.rs:1181-1191 | The zero-copy READ reply passes the outbound check. |
| Limits.ListingIsDelivered | src/server/connection.rs:1496-1600 | Every READDIR and READDIRPLUS reply passes the outbound check unchanged. |
| Limits.MutationIsDelivered | src/server/limits.rs:92-100 | Every mutation result passes the outbound check unchanged. |
| Calls.ReceiveCall | src/server/connection.rs:272-300 | The dispatcher up to the replay cache returns what the pure reading of the record returns, refusals included. |
| Calls.CallIsCanonical | src/server/connection.rs:272-300 | A call is received if and only if the record is the one encoding of a version 2 call with an empty verifier whose credential names a principal the policy admits. |
| Calls.PolicyIsEnforced | src/server/connection.rs:1796-1803 | Which records each policy admits: AUTH_SYS credentials only, empty AUTH_NONE ones only, or both; the port mapper takes both under any policy. |
| Calls.EveryRefusal | src/server/connection.rs:272-300 | Which refusal every other header gets, by number and in the order of the checks. |
| Calls.OnlyHeadersAreAnswered | src/server/connection.rs:272-284 | Whatever is not malformed starts with a call header within the limits. |
| Calls.HeaderLayout | src/server/connection.rs:272-284 | A call header is the ten fields of section 9 of RFC 5531 in order. |
| Principals.DecodeCredential | src/rpc/auth.rs:9-38 | The credential decoder returns what the pure function returns, errors included. |
| Principals.ReadWords | src/rpc/codec.rs:104-121 | Reading a bounded array of words, element by element, refines reading it off the unread bytes. |
| Principals.PrincipalIsCanonical | src/rpc/auth.rs:9-38 | A credential is accepted if and only if it is an empty AUTH_NONE body or the XDR encoding of an AUTH_SYS principal within the limits, under some stamp. |
| Principals.AuthSysLayout | src/rpc/auth.rs:18-32 | An AUTH_SYS body is stamp, machine name, uid, gid and group list, in that order. |
| Calls.WriteSize | src/server/limits.rs:5-7 | WRITE arguments exceed their data by at most the reserved overhead, and by exactly that with a full handle and three padding bytes. |
| Calls.FullWriteArrives | src/server/limits.rs:4-9 | A WRITE call with the largest credential, handle and data fits one record, is read back whole under the same limits, and decodes to the original request. |
| AdmissionSteps.StepKeepsInv | src/server/connection.rs:104-397 | Each admission step, including waits that time out into an error reply, disconnects and detached executions, keeps conservation, queue bounds, service order and the link from duplicates to lease owners. |
| AdmissionSteps.RunKeepsInv | src/server/connection.rs:104-397 | The same over every run from any state that satisfies it. |
| AdmissionTheorems.WaitsOnlyForward | src/server/connection.rs:104-397 | A request waits only for requests further along: request bytes, queue place, slot, reply bytes, leader's reply, execution permit, outgoing place, writer. |
| AdmissionTheorems.NoCircularWait | src/server/connection.rs:185-231 | In every group of requests some request waits for no member of the group. |
| AdmissionTheorems.NoOvertaking | src/server/connection.rs:185-231 | While a request is in front of another in the same line (request bytes, reply bytes, permits, a connection's queue or outgoing queue), no step serves the other; steps of third parties leave both where they are. |
| AdmissionTheorems.LineIsOrdered | src/server/connection.rs:185-231 | Of two requests one always came first. |
| AdmissionTheorems.NewcomersStandBehind | src/server/connection.rs:185-231 | Who joins a line stands behind everybody already in it. |
| AdmissionTheorems.UnblockedAdvances | src/server/connection.rs:185-231 | A request that waits for no other can take its next step, because each budget holds at least one record. |
| AdmissionTheorems.NeverStuck | src/server/connection.rs:314-397 | While any request is in the server, some request can move on without cancelling anything. |
| AdmissionTheorems.EveryScheduleDrains | src/server/connection.rs:104-397 | Without arrivals every schedule is finite, whatever times out or disconnects, and one that runs until no request can be served any further ends with the server empty and every byte and permit returned. |
| AdmissionTheorems.NewcomerCanBeServed | src/server/connection.rs:104-231 | A new request can always arrive, and from there some schedule serves everybody, without a cancellation or a timeout, and leaves every byte and permit returned. |
| AdmissionTheorems.GivingUp | src/server/connection.rs:314-397 | A request can be dropped at any point and time out at the two waits; an execution goes on detached, those who waited for it are answered if it ends, and nobody else is touched. |
| AdmissionTheorems.EveryReachableState | src/server/connection.rs:104-397 | Under accepted limits, in every reachable state free bytes and charged records add up to `max_buffered_request_bytes` and `max_buffered_reply_bytes`, free and used permits to `max_inflight_requests`, a connection's tasks and queues stay within `max_requests_per_connection`, no group of requests waits on one another, and the server is empty or can move. |

## Left out

- Sockets, tasks, timers, shutdown, the port mapper and connection limits: runtime plumbing, represented by nondeterministic steps where it matters.
- SHA-256, HMAC and randomness: fingerprints are opaque values and handles opaque byte strings.
- Host file system calls, metadata conversion and platform code of the mirror file system; only its index is modelled.
- The older demonstration handlers and their transaction tracker.
- The results of procedures that neither change anything nor list or read (GETATTR, LOOKUP, ACCESS, READLINK, FSSTAT, FSINFO, PATHCONF), status-code tables, mount list replies: each is settled by reading one branch.
- `read_i32` and `read_enum` of the decoder, which nothing here uses, and `read_array` for elements other than words.
- Overflow of positions and lengths beyond the machine word (`DecodeError::Overflow`, `checked_add`) and refusals by the allocator: buffers are assumed to fit memory.
- The generation counter of the replay cache and the ID counter of the mirror file system are unbounded; the source's are 64 bits wide.
- Flushing of a writer, and the order in which a hash map is iterated, which is arbitrary here.
- ReplayCaching.ReplayCache.Complete: assumes that the clock read under the lock does not go backwards, as a monotonic clock guarantees.
- Paging.SessionVisitsEveryChild: speaks of replies that are listings, as does `WirePaging.WireSessionVisitsEveryChild`; `Paging.EveryAnswer` says what else a call can return.
- Clock readings during a creation are parameters of `DemoListing.DemoFs.Create`.
- AdmissionTheorems.EveryReachableState: the order of senders at a full channel is not modelled; that of waiters at the budgets and of what a connection's two queues hold is.
