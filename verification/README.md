# Verified models of the vector scanners, the runtime protocols and the JSON writer

A Dafny 4.11 project that models the hardest parts of the repository and proves, for every
input and every run, what they are for. `dafny verify dfyconfig.toml` checks all of it.

**Vector scanners and reducers** (`bench/simd11/handwritten`). `Utf8` holds the grammar of
section 4 of RFC 3629, an automaton that decides it, the three nibble tables with the XOR of
the required continuations, and the scalar ladder. `Neon` gives the lane-wise meaning of the
vector operations. `Utf8Prefix` is `hand_utf8_valid_prefix`. `JsonScan` is the scan one byte
at a time, with a second, declarative reading of its answer; `JsonScanNeon` is `hand_scan`
with its blocks, event masks, re-seeding walk and byte path, proved equal to it. `Pairwise`
is `hand_pairwise` over any binary operation, so its theorem is about the shape of the tree.

**Concurrent protocols.** `BoundedQueue`, `QueueWakeups` and `QueueStranding` are the
bounded queue of `channels.rs`: its critical sections, every interleaving of its blocking
calls, and exactly when its single notifications are enough. `Endpoints` is the endpoint pair
over it, with each atomic access and each locked section a step of its own. `FileLane` and
`FileLaneRead` are admission, workers, cancellation, polling and waiting of `lane.rs`.
`IdleWatch` is the idle helper of the GPU crate.

**Glob.** `GlobMatch` is the one-star matcher, `GlobParse` the pattern parser and `GlobWalk`
the memoised walk over a fixed finite tree of directories, links and files.

**Handles and resources.** `Arena` is the generational arena, `GpuResources` the public
handle table over three arenas, `GpuContext` the context's buffers, bind-group cache,
dispatches and downloads (over the maps that `GpuResources` shows the table to be, with
handles drawn from its counter), and `HostChannel` host requests and pushed messages.
`Wrappers`, `Words` and `Sequences` hold what they share; the scanners keep bytes as bit
vectors.

**JSON writer.** `JsonDocument` is the documents, the calls that write them, the text they
stand for and the grammar of RFC 8259 with its whitespace; `JsonWriter` is the writer object
that emits that text and drains it at any moment.

Three promises turn out to have a limit, and each limit is a theorem over all cases:

- a waiting sender whose value fits may be left asleep with nobody notified, in some run, iff
  two sendable values have different capacities (`QueueStranding.StrandFreeIffCapacity`);
- a waiter can sleep through a settlement exactly at the positive multiples of 2^64
  notifications since it read the generation (`FileLane.SleepsThroughIff`);
- a writer closes successfully over values and starts that failed partway; what it hands over
  is JSON whatever the document iff the part left behind is (`JsonDocument.PartsHarmlessIff`).

## Model

| member | source | states |
|---|---|---|
| Utf8.FaultAfterGood | bench/simd11/handwritten/neon.c:190-197 | after accepted bytes a lane is fault-free exactly when the automaton accepts the byte, or it is a bad lead that the next lane will catch |
| Utf8.CleanIffAccepted | bench/simd11/handwritten/neon.c:177-197 | the three nibble tables and the XOR are exact: all lanes below n are clean iff the automaton accepts those bytes or refuses only a bad lead in the last |
| Utf8.RunIsWindow | bench/simd11/handwritten/jsonscan.c:94-121 | the validator's whole state can be read back from the last three bytes |
| Utf8.LadderResumes | bench/simd11/handwritten/neon.c:206-222 | the ladder started at any scalar boundary answers what it answers from an earlier one |
| Utf8.WellFormedIffBoundary | bench/simd11/handwritten/neon.c:209-222 | the automaton decides the grammar of section 4 of RFC 3629 |
| Utf8.LadderIsLongest | bench/simd11/handwritten/neon.c:209-223 | the ladder from offset 0 stops at the end of the longest well-formed prefix |
| Utf8.CompletableIff | bench/simd11/handwritten/neon.c:206-222 | the automaton refuses a byte exactly when no well-formed text starts with the bytes up to it, so a reported fault is where the text goes wrong |
| Neon.BlockClean | bench/simd11/handwritten/neon.c:187-204 | a block's fault vector is zero iff each of its sixteen bytes, with the three before it, is fault-free |
| Utf8Prefix.CompleteTail | bench/simd11/handwritten/neon.c:199-202 | the incomplete-limit comparison is zero iff no scalar is left open at the block edge |
| Utf8Prefix.SkipBlocks | bench/simd11/handwritten/neon.c:184-205 | blocks are skipped only while every byte before them is accepted, or all but a bad lead in the last byte |
| Utf8Prefix.StepBack | bench/simd11/handwritten/neon.c:206-208 | stepping back three bytes and over continuations lands on a scalar boundary |
| Utf8Prefix.Climb | bench/simd11/handwritten/neon.c:209-223 | the scalar loop computes the ladder |
| Utf8Prefix.HandUtf8ValidPrefix | bench/simd11/handwritten/neon.c:176-224 | for every input the answer is the ladder's from offset 0, the longest well-formed prefix |
| JsonScan.AdvanceMeans | bench/simd11/handwritten/jsonscan.c:138-186 | one byte keeps the automaton's variables equal to the text's own notions of string, escape and recorded positions, or stops for the reason the text gives |
| JsonScan.ScannedMeans | bench/simd11/handwritten/jsonscan.c:132-187 | the scan is still running after n bytes iff those bytes hold no fault |
| JsonScan.AnswerOkIff | bench/simd11/handwritten/jsonscan.c:132-191 | status 0 iff the text is well-formed UTF-8, backslashes stand in strings, control characters are whitespace outside them and the words fit; the tape is then exactly the increasing unescaped quotes and structural characters outside strings, bit 31 on the closing quote of a string with a backslash |
| JsonScan.FirstFault | bench/simd11/handwritten/jsonscan.c:138-183 | a refusal names the first faulty byte, its reason, and the words before it |
| JsonScan.AnswerIs | bench/simd11/handwritten/jsonscan.c:132-192 | the whole answer by the text alone: all words and status 0; all words and the missing byte when the text ends inside a scalar; or the first faulty byte, its reason and the words before it |
| JsonScan.AnswersUnique | bench/simd11/handwritten/jsonscan.c:132-192 | only one status, position and tape meet that |
| JsonScanNeon.StepEvent | bench/simd11/handwritten/jsonscan.c:137-186 | one drained event moves the event machine as the byte-at-a-time scan moves |
| JsonScanNeon.StepQuiet | bench/simd11/handwritten/jsonscan.c:122-131 | a byte that is no event changes nothing the machine needs |
| JsonScanNeon.BlockEvent | bench/simd11/handwritten/jsonscan.c:132-187 | the same inside a validated block, where bytes past 127 are not events |
| JsonScanNeon.NibblesSpread | bench/simd11/handwritten/jsonscan.c:32-34 | the 16-bit shift right by four, narrowed, gives each comparison lane four bits of the word, in order |
| JsonScanNeon.NextLane | bench/simd11/handwritten/jsonscan.c:132-135 | the lowest set bit names the next marked lane, and clearing its nibble clears that lane |
| JsonScanNeon.TakeLane | bench/simd11/handwritten/jsonscan.c:132-135 | the same as the loop does it |
| JsonScanNeon.Drain | bench/simd11/handwritten/jsonscan.c:132-187 | draining a mask visits its marked lanes in order and writes only the words they record |
| JsonScanNeon.DrainsFollow | bench/simd11/handwritten/jsonscan.c:132-188 | after a drained block the machine stands where the byte-at-a-time scan stands |
| JsonScanNeon.Seed | bench/simd11/handwritten/jsonscan.c:94-121 | the walk of at most three bytes computes the recursive walk |
| JsonScanNeon.SeedFollows | bench/simd11/handwritten/jsonscan.c:94-121 | re-seeding recovers exactly the scan's UTF-8 state, or the error the scan has already found |
| JsonScanNeon.Classify | bench/simd11/handwritten/jsonscan.c:50-93 | a block's mask marks exactly its events and its verdict is that of the tables |
| JsonScanNeon.ByteLoopFollows | bench/simd11/handwritten/jsonscan.c:122-190 | the byte path finishes with the answer of the byte-at-a-time scan |
| JsonScanNeon.BlockTurn | bench/simd11/handwritten/jsonscan.c:50-93 | one block ends where the scan ends after its sixteen bytes, stops with the scan's answer, or holds a fault and changes nothing |
| JsonScanNeon.ByteTurn | bench/simd11/handwritten/jsonscan.c:122-131 | one byte of the byte path keeps the answer |
| JsonScanNeon.HandScan | bench/simd11/handwritten/jsonscan.c:36-192 | for every text and capacity the written words, status and position are those the text itself calls for, a text that ends inside a scalar included, and the rest of the tape is untouched |
| Pairwise.CountSplits | bench/simd11/handwritten/neon.c:123-132 | the lowest level holds the odd leaf and the levels above count the pairs |
| Pairwise.CountHasRoom | bench/simd11/handwritten/neon.c:121-132 | with fewer than 2^levels - 1 leaves some level is free, so a push stays in the arrays |
| Pairwise.TotalIsTree | bench/simd11/measure.py:137-140 | folding the counter gives the tree of repeatedly combined adjacent pairs |
| Pairwise.TreeSplits | bench/simd11/measure.py:137-140 | the tree keeps its leaves in order and splits at the largest power of two below their number |
| Pairwise.HandPairwisePush | bench/simd11/handwritten/neon.c:123-132 | the in-place carry is the pure push |
| Pairwise.Fold | bench/simd11/handwritten/neon.c:148-155 | the final loop folds the full levels from the smallest up |
| Pairwise.HandPairwise | bench/simd11/handwritten/neon.c:134-156 | for any operation and every 64-bit count the result is the adjacent-pair tree over the seed and the products |
| BoundedQueue.PoppedAccounted | native/crates/host/src/channels.rs:70-103 | the saturating byte count never saturates: what a pop subtracts is what the push added |
| BoundedQueue.BoundedQueue.TryPush | native/crates/host/src/channels.rs:42-68 | accepted, full or closed exactly by state and limits; a refused value comes back and nothing changes |
| BoundedQueue.BoundedQueue.TakeHead | native/crates/host/src/channels.rs:92-103 | the oldest entry and its exact bytes leave |
| BoundedQueue.BoundedQueue.Close | native/crates/host/src/channels.rs:132-138 | nothing held is lost and nothing more is accepted |
| BoundedQueue.BoundedQueue.CloseAndDiscard | native/crates/host/src/channels.rs:140-149 | everything held is discarded and the queue is closed and empty |
| QueueWakeups.NextKeeps | native/crates/host/src/channels.rs:47-149 | every critical section keeps the wake-up invariant |
| QueueWakeups.NoWakeupLost | native/crates/host/src/channels.rs:47-149 | in every run, while open, an un-notified receiver leaves at most as many entries as notified receivers and an un-notified sender leaves an entry or a notified sender; once closed nobody sleeps un-notified |
| QueueWakeups.NeverBothStuck | native/crates/host/src/channels.rs:70-130 | a receiver and a sender never both sleep with nobody notified |
| QueueWakeups.RunDoes | native/crates/host/src/channels.rs:47-149 | in every run a push takes the value last exactly when there is room and the queue is open, a pop takes the first entry whenever there is one, also after a close, a thread sleeps exactly when it must wait, and the two closes keep or discard the entries |
| QueueWakeups.AlwaysGoesOn | native/crates/host/src/channels.rs:47-149 | whatever a thread may do in any state, it can |
| QueueStranding.CountDecides | native/crates/host/src/channels.rs:47-68 | if any two values fit alike, only the number of entries decides what fits |
| QueueStranding.UniformNeverStrands | native/crates/host/src/channels.rs:92-130 | then in every run a sleeping sender whose value fits has a notified sender |
| QueueStranding.OtherwiseStrands | native/crates/host/src/channels.rs:92-130 | otherwise a run is constructed that leaves such a sender asleep with nobody notified |
| QueueStranding.StrandFreeIff | native/crates/host/src/channels.rs:92-130 | no run strands a sender iff any two sendable values fit alike in every queue within its limits |
| QueueStranding.UniformIff | native/crates/host/src/channels.rs:47-68 | any two values fit alike in every queue iff an empty queue takes them equally often |
| QueueStranding.StrandFreeIffCapacity | native/crates/host/src/channels.rs:92-130 | no run strands a sender iff every sendable value has the same capacity, the lesser of the message limit and the byte limit divided by its size |
| QueueStranding.MixedSizesMayStrand | native/crates/host/src/channels.rs:105-130 | a concrete queue of ten bytes and values of mixed size strands a sender |
| Endpoints.NextKeeps | native/crates/host/src/channels.rs:312-502 | every step keeps one live generation, one winner for each retired one, the exact byte count within both limits and the accounting of values |
| Endpoints.RunKeeps | native/crates/host/src/channels.rs:273-502 | in every run: received values are a FIFO prefix of accepted ones, each accepted value is exactly one of received, queued or discarded, and racing transfers and closes have one winner |
| Endpoints.StaleNeverActs | native/crates/host/src/channels.rs:348-410 | every value enqueued or dequeued is moved for the newest generation of its direction, and a close step belongs to a direction with no live generation |
| Endpoints.EndOfStreamIsFinal | native/crates/host/src/channels.rs:390-410 | after end of stream nothing is accepted and every accepted value was received or discarded |
| Endpoints.RunDoes | native/crates/host/src/channels.rs:348-502 | every step of every run does to queue, generations and values what its call is for: a sender's close leaves the entries to be received, a receiver's and an abort discard them all |
| Endpoints.NothingDiscarded | native/crates/host/src/channels.rs:470-499 | nothing is discarded while no receiver has finished closing and nothing was aborted |
| Endpoints.SenderCloseDrains | native/crates/host/src/channels.rs:390-410 | so at the end of such a stream every accepted value has been received, in order |
| Endpoints.AcceptedWasSent | native/crates/host/src/channels.rs:370-388 | no value is accepted that was not sent, by the generation that sent it and within the byte limit |
| Endpoints.SendAlone | native/crates/host/src/channels.rs:370-388 | an undisturbed send of the live sender goes through to its end, and a stale or oversized one does nothing |
| Endpoints.ReceiveAlone | native/crates/host/src/channels.rs:390-410 | the same for a receive |
| Endpoints.TransferAlone | native/crates/host/src/channels.rs:348-368 | an undisturbed transfer of the live generation issues its successor |
| Endpoints.CloseAlone | native/crates/host/src/channels.rs:470-490 | an undisturbed close of the live generation retires it and then drains or discards |
| FileLane.NextKeeps | native/crates/files/src/lane.rs:41-198 | every step of submitting, working, growing, cancelling, settling, polling and waiting keeps the invariant |
| FileLane.RunKeeps | native/crates/files/src/lane.rs:378-443 | in every run admission is the count and byte sum of the live guards within 128 requests and 256 MiB, a published completion has released its guard, a cancelled transfer keeps its charge until its worker ends, and poll answers plus the counter are the settlements counted |
| FileLane.NeverNegative | native/crates/files/src/lane.rs:150-163 | releasing a guard never underflows the counters |
| FileLane.LeavesPendingOnce | native/crates/files/src/lane.rs:41-56 | a transfer leaves Pending at most once, whatever races |
| FileLane.OutcomeIsVerdict | native/crates/files/src/lane.rs:41-56 | in every run the outcome is the one the history calls for: whichever of cancellation and settlement came first decides, and Ready and Failed each have work that ended so before |
| FileLane.SettlesAsWorked | native/crates/files/src/lane.rs:41-56 | a transfer that settles before any cancellation is Ready if its work succeeded and Failed if not |
| FileLane.AdmittedIff | native/crates/files/src/lane.rs:378-410 | a request is admitted, and a transfer grows, exactly when it and what is in flight stay within the limits |
| FileLane.PollAnswersAll | native/crates/files/src/lane.rs:366-376 | after a poll every completion counted so far has been answered |
| FileLane.NotifiesOnce | native/crates/files/src/lane.rs:185-198 | every completion and every cancellation notifies exactly once |
| FileLane.SleeperIsOwed | native/crates/files/src/lane.rs:58-99 | unless a positive multiple of 2^64 notifications have passed since its read, a sleeping waiter with a counted settlement has a notification coming |
| FileLane.SleepsThroughAfterWrap | native/crates/files/src/lane.rs:73-99 | at every positive multiple of 2^64 a run is constructed in which a waiter sleeps on a settlement and no notification is coming |
| FileLane.SleepsThroughIff | native/crates/files/src/lane.rs:58-99 | a settlement can be slept through at a distance of exactly the positive multiples of 2^64 notifications, over all runs |
| FileLaneRead.AdmissionGuard.GrowTo | native/crates/files/src/lane.rs:119-148 | granted iff the request and, with what other transfers hold, the lane stay within their limits; the lane counts what all hold, and a refusal names the limit and charges nothing |
| FileLaneRead.Append | native/crates/files/src/lane.rs:465-501 | every chunk is read into room that is already charged |
| FileLaneRead.ReadWhole | native/crates/files/src/lane.rs:452-503 | with other transfers charging and releasing in between, the bytes are a prefix of the file, never more than charged, complete up to the reported size or the end; each error is answered iff its cause arose, and too large iff the size or, for a file reported empty, its length exceeds the limit |
| GlobMatch.MatchesIffSplits | native/crates/files/src/glob.rs:143-191 | the recursive matcher is the declarative one: the name cuts into one piece a token |
| GlobMatch.FindClassEnd | native/crates/files/src/glob.rs:104-118 | where a class closes, a first bracket being a member |
| GlobMatch.ClassAccepts | native/crates/files/src/glob.rs:120-141 | the loop decides membership in the class's items, with negation and ranges |
| GlobMatch.TrackStar | native/crates/files/src/glob.rs:152-157 | a new star makes earlier ones unnecessary |
| GlobMatch.TrackByte | native/crates/files/src/glob.rs:158-177 | a consumed byte keeps: the pattern matches iff from here, or from the last star at a later start |
| GlobMatch.TrackRetry | native/crates/files/src/glob.rs:181-186 | retrying the last star one byte later loses no match |
| GlobMatch.AcceptsAt | native/crates/files/src/glob.rs:158-177 | whether the single-byte token here accepts the byte, and where the next token starts |
| GlobMatch.OnlyStars | native/crates/files/src/glob.rs:187-190 | at the end of the name the rest matches iff it is all stars |
| GlobMatch.Turn | native/crates/files/src/glob.rs:149-186 | one turn keeps what the loop knows and moves the star, its trial position or the name position on |
| GlobMatch.MatchesName | native/crates/files/src/glob.rs:143-191 | for every pattern and name the greedy loop ends and answers true iff the name splits according to the tokens |
| GlobMatch.InItemsIff | native/crates/files/src/glob.rs:120-141 | membership in a class is membership in one of its items |
| GlobMatch.ClassIff | native/crates/files/src/glob.rs:120-141 | a class accepts a byte inside some item, a negated one a byte outside all |
| GlobMatch.TokensSpell | native/crates/files/src/glob.rs:104-177 | the tokens are the pattern's own bytes cut up, each piece spelling its token, with hyphens read as ranges from left to right and a class ended by the first bracket that is no first member |
| GlobMatch.FaultIsFirst | native/crates/files/src/glob.rs:83-102 | a fault is that of the first token that has one |
| GlobMatch.CheckComponent | native/crates/files/src/glob.rs:83-102 | the first fault of the component's tokens, a class left open or two stars that are not the whole of it, or none |
| GlobParse.CollapseDenotes | native/crates/files/src/glob.rs:39-65 | collapsing repeated double stars changes no denoted path |
| GlobParse.CollapseFails | native/crates/files/src/glob.rs:39-65 | nor whether the walk fails |
| GlobParse.CollapseLeavesNoPairs | native/crates/files/src/glob.rs:47-50 | no double star follows another, and only a list with such a pair is changed |
| GlobParse.RootOf | native/crates/files/src/glob.rs:67-81 | the root is a drive with its separator on Windows, else a leading separator, else nothing |
| GlobParse.Split | native/crates/files/src/glob.rs:42 | pieces without separators that, joined by separators, give the text back |
| GlobParse.SplitUnique | native/crates/files/src/glob.rs:42 | no other pieces do |
| GlobParse.NonEmptyKeeps | native/crates/files/src/glob.rs:42-45 | exactly the pieces that are not empty are kept, in order |
| GlobParse.SpeltJoined | native/crates/files/src/glob.rs:39-53 | names joined by separators are a pattern whose components are those names |
| GlobParse.FirstFaultIs | native/crates/files/src/glob.rs:42-46 | the fault reported is that of a component with no faulty one before it |
| GlobParse.LessIff | native/crates/files/src/glob.rs:22-31 | byte order: the first byte that differs is smaller, or the shorter is a prefix |
| GlobParse.Components | native/crates/files/src/glob.rs:39-53 | the non-empty pieces with repeated double stars collapsed, or the first fault among them |
| GlobParse.Parse | native/crates/files/src/glob.rs:39-81 | a pattern is refused for the first reason found, or has the text's root, a drive on Windows included, and its components, collapsed |
| GlobParse.Ordered | native/crates/files/src/glob.rs:22-31 | the paths of the set in byte order, each once |
| GlobParse.ExpandText | native/crates/files/src/glob.rs:17-23 | a text expands to exactly the paths its own uncollapsed components denote, in order and each once, is refused as parsing refuses it, or fails exactly when the plain walk would |
| GlobWalk.RenderInjective | native/crates/files/src/glob.rs:309-314 | different component lists give different prefixes, so a prefix identifies a directory of the walk and its depth |
| GlobWalk.RenderJoins | native/crates/files/src/glob.rs:309-314 | a path is its root followed by its components joined by separators |
| GlobWalk.WildIff | native/crates/files/src/glob.rs:193-198 | a component has a wildcard exactly when some token of it is no literal |
| GlobWalk.PlainIsItself | native/crates/files/src/glob.rs:215-231 | a component without one matches itself and nothing else |
| GlobWalk.RecursiveDenotes | native/crates/files/src/glob.rs:252-286 | a double star stands for any chain of real directories, and for none that a link leads to |
| GlobWalk.Walk.Descend | native/crates/files/src/glob.rs:200-250 | from any reached position: ok iff the un-memoised walk would not fail, every match found is denoted and every denoted path below is found |
| GlobWalk.Walk.DescendPlain | native/crates/files/src/glob.rs:200-250 | the same for literal components and the end of the pattern |
| GlobWalk.Walk.DescendWild | native/crates/files/src/glob.rs:200-250 | the same for a wildcard component over every listed name |
| GlobWalk.Walk.Recurse | native/crates/files/src/glob.rs:252-286 | the same for a double star, with the depth test before the memo test |
| GlobWalk.Walk.ExpandHere | native/crates/files/src/glob.rs:252-286 | logs the pair of pattern position and directory, which was never logged before, and completes the rest of the pattern here and the double star in every real directory here |
| GlobWalk.Walk.WithChild | native/crates/files/src/glob.rs:288-301 | the prefix is restored after a child |
| GlobWalk.Expand | native/crates/files/src/glob.rs:17-33 | the walk answers exactly the existing paths the pattern denotes, or fails exactly when the un-memoised walk would, and its log of expansions has no repeats |
| Arena.PartsOfPack | native/crates/abi/src/lib.rs:124-137 | unpacking a packed handle gives its index and generation |
| Arena.PackOfParts | native/crates/abi/src/lib.rs:124-137 | packing what a handle unpacks to gives the handle back |
| Arena.FullIff | native/crates/abi/src/lib.rs:169-220 | no slot is free or left to append iff the live handles and the removed ones of the last generation number 2^32 - 1 |
| Arena.Arena.Insert | native/crates/abi/src/lib.rs:169-187 | a handle never issued before and a map with one entry more, or a refusal, exactly when the live handles and the removed ones of the last generation number 2^32 - 1 |
| Arena.Arena.Get | native/crates/abi/src/lib.rs:189-196 | any 64-bit value is answered as the map of live handles answers it |
| Arena.Arena.Put | native/crates/abi/src/lib.rs:198-205 | an assignment through the lent reference changes the map at that handle alone |
| Arena.Arena.Remove | native/crates/abi/src/lib.rs:207-220 | the entry leaves the map; its handle stays issued, so it is stale for ever |
| Arena.LenCounts | native/crates/abi/src/lib.rs:161-220 | `len` is the number of live handles |
| Arena.Replay | native/crates/abi/src/lib.rs:169-220 | over any run of calls, each insert answers a handle none before it answered, or refuses, exactly when the handles answered before it that are live, or removed and of the last generation, number 2^32 - 1; each lookup or remove succeeds iff its handle was inserted before and not yet removed, with the value it was inserted with |
| Arena.RemovedForEver | native/crates/abi/src/lib.rs:169-220 | in such a run no two inserts answer one handle, and a removed handle is stale to every later call and never issued again |
| GpuResources.Table.PublicHandle | native/crates/gpu/src/lib.rs:220-230 | a drawn handle is above every registered one, so the table never already holds it; refused iff the counter is at its end |
| GpuResources.Table.Reference | native/crates/gpu/src/lib.rs:274-288 | a handle is found, stale, or of another kind, which is named |
| GpuResources.Shelf.Insert | native/crates/gpu/src/lib.rs:232-272 | a fresh public handle for the value, or a refusal that leaves nothing in the arena, exactly when the counter is at its end or the arena of that kind has no slot left |
| GpuResources.Shelf.Get | native/crates/gpu/src/lib.rs:290-313 | a registered handle always resolves; the arena's rejection is never reported |
| GpuResources.Shelf.Put | native/crates/gpu/src/lib.rs:295-320 | an assignment through a registered handle changes what that handle names and nothing else |
| GpuResources.Shelf.Remove | native/crates/gpu/src/lib.rs:322-341 | both levels lose the entry together |
| GpuResources.Resources.OnBuffers | native/crates/gpu/src/lib.rs:197-341 | a call on buffers leaves kernels and bindings registered as they were |
| GpuResources.Resources.OnKernels | native/crates/gpu/src/lib.rs:197-341 | the same for a call on kernels |
| GpuResources.Resources.OnBindings | native/crates/gpu/src/lib.rs:197-341 | the same for a call on bindings |
| GpuResources.Replay | native/crates/gpu/src/lib.rs:197-341 | over any run of calls of any kind an insert answers the next handle, or refuses, exactly when the counter is at its end or the outcomes before it fill the arena of its kind; every other call succeeds iff its handle was issued for that kind and not removed, and no arena rejection is reported |
| GpuResources.NeverReissued | native/crates/gpu/src/lib.rs:220-230 | in such a run the handles issued strictly increase |
| GpuResources.DrawnElsewhere | native/crates/gpu/src/lib.rs:220-230 | handles drawn by other contexts leave a table valid |
| GpuContext.ExtentInside | native/crates/gpu/src/lib.rs:1506-1571 | a range in a buffer is accepted iff it is words or ends the buffer, and its words lie inside the rounded allocation |
| GpuContext.GpuContext.CreateBuffer | native/crates/gpu/src/lib.rs:545-585 | accepted iff the size is positive, within the limit and can be rounded; the allocation has the rounded size |
| GpuContext.GpuContext.ReleaseBuffer | native/crates/gpu/src/lib.rs:587-602 | refused exactly while a download is pending |
| GpuContext.GpuContext.Upload | native/crates/gpu/src/lib.rs:604-630 | exactly the bytes given replace those of the range, and a nonempty upload makes one new version |
| GpuContext.GpuContext.CreateKernel | native/crates/gpu/src/lib.rs:632-706 | accepted iff the module passes and the kernel is within every limit; then bindings of its shape can be made and dispatched |
| GpuContext.GpuContext.ValidateKernel | native/crates/gpu/src/lib.rs:1668-1735 | the checks in their order accept exactly the kernels within the device's limits |
| GpuContext.GpuContext.ReleaseKernel | native/crates/gpu/src/lib.rs:769-778 | bindings made for the kernel stay, and can no longer be dispatched |
| GpuContext.GpuContext.CreateBindings | native/crates/gpu/src/lib.rs:780-810 | a binding of the kernel's shape with every slot empty |
| GpuContext.GpuContext.SetBufferSlot | native/crates/gpu/src/lib.rs:845-916 | accepted iff the range fits, is aligned and its buffer is not on the other side; what that slot was last set to is then exactly this, and a refusal names the first reason and changes nothing |
| GpuContext.CacheIsCurrent | native/crates/gpu/src/lib.rs:949-984 | a cached group, whenever built, is the group of the slots as they are now |
| GpuContext.GpuContext.ValidateStorageSlots | native/crates/gpu/src/lib.rs:1151-1165 | passes iff every slot is set to a live buffer, and otherwise names the first that is not |
| GpuContext.GpuContext.CheckDispatch | native/crates/gpu/src/lib.rs:918-953 | passes iff a dispatch can be built, and otherwise names the first reason, down to the first slot that is missing or stale |
| GpuContext.GpuContext.MakeStorageGroup | native/crates/gpu/src/lib.rs:1102-1149 | each entry is the allocation of the slot's buffer with the slot's offset and size, and a side without slots has no group |
| GpuContext.GpuContext.BuildGroups | native/crates/gpu/src/lib.rs:949-984 | afterwards every group is that of the slots, whether built now or cached |
| GpuContext.GpuContext.BumpVersions | native/crates/gpu/src/lib.rs:1059-1065 | one new version for each written buffer, however many slots name it |
| GpuContext.GpuContext.Dispatch | native/crates/gpu/src/lib.rs:918-1067 | an error means nothing was submitted and names the first reason; a submission binds at every slot the buffer's own allocation, offset and rounded size last asked for and nothing else, inside allocations with nothing both read and written; exactly the written buffers get one new version and what the device produced |
| GpuContext.RanKeeps | native/crates/gpu/src/lib.rs:1045-1065 | after a dispatch every version still names one content, whatever the device wrote |
| GpuContext.GpuContext.QueueDownload | native/crates/gpu/src/lib.rs:1194-1246 | accepted iff the range is good and no download is pending or unread; it captures the bytes and version of that moment |
| GpuContext.GpuContext.SettleFirst | native/crates/gpu/src/lib.rs:1309-1355 | the first listed buffer is always found pending, so the disagreement error is unreachable; it is settled whether or not the map fails |
| GpuContext.GpuContext.Synchronize | native/crates/gpu/src/lib.rs:1301-1355 | downloads before the first failed map can be read as they were queued, that one is dropped, the rest stay listed |
| GpuContext.GpuContext.ReadDownload | native/crates/gpu/src/lib.rs:1427-1464 | answers, once and only for the range queued, the bytes of the version captured when it was queued |
| GpuContext.DrawnElsewhere | native/crates/gpu/src/lib.rs:220-230 | handles drawn by other contexts leave a context valid |
| IdleWatch.NextKeeps | native/crates/gpu/src/lib.rs:1256-1299 | every step keeps: the newest helper alone can be armed, and it is while the watch says so |
| IdleWatch.AtMostOneArmed | native/crates/gpu/src/lib.rs:1248-1299 | in every run at most one helper is armed |
| IdleWatch.FalseIsWoken | native/crates/gpu/src/lib.rs:1274-1299 | every false answer has a helper that had not disarmed, and whose disarming and then wake come after it |
| IdleWatch.NeverStuck | native/crates/gpu/src/lib.rs:1278-1299 | an owed wake always has a next step, its helper's or the lock holder's |
| IdleWatch.CanArmAgain | native/crates/gpu/src/lib.rs:1288-1298 | asking again once the helper has disarmed arms a new one |
| IdleWatch.FailureIsUnanswered | native/crates/gpu/src/lib.rs:1256-1292 | a failure is kept exactly while a failed wait has ended and no call has started since |
| IdleWatch.NextCallAnswers | native/crates/gpu/src/lib.rs:1248-1266 | so a wait that failed is answered by the next call, and every other call goes on to poll |
| IdleWatch.EveryCallAnswered | native/crates/gpu/src/lib.rs:1256-1299 | each call is answered once, with done as often as the device was idle and busy as often as a helper was found or armed |
| HostChannel.HostChannel.Dispatched | native/crates/host/src/host_channel.rs:296-323 | refused while the id is outstanding |
| HostChannel.HostChannel.Conclude | native/crates/host/src/host_channel.rs:159-197 | a waiting call settles and joins `ready`, a waiting post is forgotten and never does, anything else is refused unchanged |
| HostChannel.HostChannel.Answer | native/crates/host/src/host_channel.rs:325-361 | the outcome read is the one the call settled with |
| HostChannel.HostChannel.Release | native/crates/host/src/host_channel.rs:363-369 | the request is forgotten; what has settled stays settled |
| HostChannel.HostChannel.Ready | native/crates/host/src/host_channel.rs:371-384 | the oldest settled ids leave in settlement order |
| HostChannel.HostChannel.Cancelled | native/crates/host/src/host_channel.rs:386-423 | a callback is handed out at most once for a dispatch and only while it waits |
| HostChannel.HostChannel.Push | native/crates/host/src/host_channel.rs:201-213 | at most 4096 messages wait, the oldest being dropped |
| HostChannel.HostChannel.Pop | native/crates/host/src/host_channel.rs:425-452 | the oldest waiting message |
| HostChannel.FreshIdsSettleOnce | native/crates/host/src/host_channel.rs:159-197 | with fresh ids no id is settled twice, so none leaves `ready` twice |
| HostChannel.Conserved | native/crates/host/src/host_channel.rs:201-213 | pushed = popped + dropped + waiting |
| HostChannel.Leaves | native/crates/host/src/host_channel.rs:201-213 | what waits stays a suffix of what was pushed, and what was popped a subsequence in order |
| JsonDocument.AcceptText | bench/simd-json/native/simdjson_control.cpp:1006-1033 | the text of the document after a call is that before it and the bytes the writer appends, commas and colons included |
| JsonDocument.AcceptCalls | bench/simd-json/native/simdjson_control.cpp:1006-1232 | the calls a half-written document stands for grow by exactly the accepted call |
| JsonDocument.TreeRuns | bench/simd-json/native/simdjson_control.cpp:1006-1232 | wherever a value may stand, a document's calls are all accepted and add that document |
| JsonDocument.CompleteIff | bench/simd-json/native/simdjson_control.cpp:1006-1232 | a run of calls is accepted as one complete document iff it is that document's calls |
| JsonDocument.SoundIsJson | bench/simd-json/native/simdjson_control.cpp:1047-1232 | a document whose whole values are JSON texts and whose keys are strings, with any whitespace around them, renders as a JSON text of section 2 of RFC 8259 |
| JsonDocument.PaddedIsJson | bench/simd-json/native/simdjson_control.cpp:1456-1491 | a verified value may carry the whitespace of its source: around a JSON text it leaves a JSON text |
| JsonDocument.SoundIff | bench/simd-json/native/simdjson_control.cpp:1085-1186 | that holds iff every value handed over is a JSON text and every key a string with whitespace around it, which a caller can check |
| JsonDocument.PartsHarmlessIff | bench/simd-json/native/simdjson_control.cpp:1148-1278 | values that fail after a given part leave JSON in every document, however many there are and wherever they stand, iff that part is itself JSON |
| JsonDocument.UnsoundMayStillBeJson | bench/simd-json/native/simdjson_control.cpp:1148-1278 | for a single document that is not necessary: an empty part alone in an array leaves the text of an empty array |
| JsonWriter.Writer.PrepareValue | bench/simd-json/native/simdjson_control.cpp:1006-1033 | room is made exactly where a value may stand, and a refusal says whether the writer is closed, has its root or needs a key |
| JsonWriter.ValueIs | bench/simd-json/native/simdjson_control.cpp:1006-1033 | a value is written as it is, and a start as its bracket, after a comma exactly when it is not the first of its array |
| JsonWriter.Writer.BeginArray | bench/simd-json/native/simdjson_control.cpp:1047-1064 | with memory for its frame, accepted iff a value may stand; a refusal changes nothing |
| JsonWriter.Writer.BeginObject | bench/simd-json/native/simdjson_control.cpp:1066-1083 | the same for objects |
| JsonWriter.Writer.WriteKey | bench/simd-json/native/simdjson_control.cpp:1085-1146 | accepted iff an object is open that awaits no value and the key is UTF-8; a refusal changes nothing |
| JsonWriter.Writer.Write | bench/simd-json/native/simdjson_control.cpp:1148-1200 | accepted iff a value may stand; a refusal changes nothing |
| JsonWriter.Writer.EndContainer | bench/simd-json/native/simdjson_control.cpp:1202-1232 | accepted iff the innermost container is of that kind and no key awaits a value |
| JsonWriter.Writer.DrainAtThreshold | bench/simd-json/native/simdjson_control.cpp:961-971 | fewer than 64 KiB stay held and no byte is lost or reordered |
| JsonWriter.Writer.Flush | bench/simd-json/native/simdjson_control.cpp:1246-1253 | draining moves bytes and changes none |
| JsonWriter.Writer.Close | bench/simd-json/native/simdjson_control.cpp:1260-1278 | succeeds iff one document is complete, and then the bytes handed over are that document's text, however it was drained, and JSON if the calls were sound |
| JsonWriter.Writer.WriteFails | bench/simd-json/native/simdjson_control.cpp:1148-1182 | a write that fails partway leaves the writer as if that part had been a value |
| JsonWriter.FailedRootStillCloses | bench/simd-json/native/simdjson_control.cpp:1148-1278 | after a root value that failed partway the close succeeds, hands over exactly that part, and is JSON iff the part is, which an empty part is not |
| JsonWriter.Writer.BeginFails | bench/simd-json/native/simdjson_control.cpp:1047-1083 | a start that is given room and finds no memory for its frame leaves the writer as if the bracket had been a value |
| JsonWriter.FailedStartStillCloses | bench/simd-json/native/simdjson_control.cpp:1047-1278 | after a root start that failed so the close succeeds over the bracket alone, which is no JSON text |
| JsonDocument.OneCharacterIff | bench/simd-json/native/simdjson_control.cpp:1047-1278 | the JSON texts of one character are the digits, so neither bracket is one |

## Left out

- NEON instructions as hardware: only their lane-wise meaning on sixteen bytes is modelled.
- `hand_map`, `hand_algebraic`, `jsonindex.c`, base64 and SHA-256 controls: easier relatives of the scanners modelled.
- JsonScanNeon.HandScan: assumes fewer than 2^31 bytes, since tape words use bit 31 as a flag; the test that skips an event past the end is not written out because no event ever lies there.
- Utf8Prefix.HandUtf8ValidPrefix: assumes fewer than 2^32 bytes, since the answer is a 32-bit number.
- `Endpoint::wait_ready` and `readiness`: bounded by its timeout; the wake-up theorems are about `push_wait` and `pop`.
- QueueWakeups.NoWakeupLost: is safety of every reachable state, not fairness of the scheduler; timeouts and spurious wake-ups may happen at any time.
- `write_atomic`, permissions and platform path conversion: input and output; the file system is an abstract tree or an abstract byte source.
- GlobWalk.Expand: answers one failure for a tree too deep and for an entry that cannot be read; an entry whose type or name cannot be read counts as unreadable.
- JsonWriter.Writer.Close: promises JSON from sound calls; for one document with a failed value the converse is false (`JsonDocument.UnsoundMayStillBeJson`), and `JsonDocument.PartsHarmlessIff` is the exact condition over all documents.
- The GPU device, SPIR-V checks, timestamps, cost records and metadata JSON: the device is an in-order queue whose answers are parameters.
- GpuContext.GpuContext.Dispatch: takes what the shader wrote as a parameter, confined to the allocations of the write group; the version counter is unbounded.
- GpuContext.GpuContext.CreateKernel: takes whether the shader module and its entry point are valid as a parameter; the product of the workgroup dimensions is unbounded.
- `read_whole` from its open file on: opening and the size reported enter the model as parameters.
- `simdjson` builder memory: an append never fails; only a frame that finds no memory is modelled (`JsonWriter.Writer.BeginFails`).
- GpuContext.GpuContext.CreateBuffer: takes whether the arena has room as a parameter, and the context answers a wrong-kind handle as a stale one; `GpuResources` proves both exactly.
- `HostChannel::clear`: shutdown only, after which no request is outstanding.
- `simdjson` parsing, string escaping and number formatting: a key and a value enter the writer model as their encoded text.
- Lua and C shims, panic guards, the fork scheduler, the tar reader, the editor extension and the build scripts: plumbing with weaker properties.
