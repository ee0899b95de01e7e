# Models of the CoreAsync framework and its benchmark and mock libraries

CoreAsync is an activity framework: activities are posted to a work-stealing
thread pool, driven through pipelines, connected by signals and slots, and
written to files by a versioned serializer. Its repository carries Google
Benchmark and GoogleTest. The modules here model the parts of all three whose
correctness is not visible from one function, and prove it.

| modules | what they model |
|---|---|
| Basics | notions that several modules share |
| MatchMatrices, BipartiteMatching, UnorderedElements | maximum bipartite matching by depth-first augmentation and the matcher built on it |
| ThreadPool, ThreadPoolRuns, PostOrder, WorkerRounds, StealAffinity, StealPosts, StealRace, ThreadPriority | posters, workers and thieves as interleaved atomic steps; what one worker does by itself; where a post goes |
| ActivityProxies | concurrent calls of one proxy, step by step |
| ActivityQueue, QueueInterleaving, Remainders | the ring queue, used sequentially and as interleaved loads and swaps |
| Bytes, EndianConversion, FileBuffers, Codec, Layout, Serializer | byte order, the chunked writer and refilling reader, the format and its bytes, and the serializer on top |
| Barrier, BarrierProgress | the shrinking barrier and the end-of-run condition |
| Prerequisites, Expectations, ExpectationRuns | stack traversals of the prerequisite graph of mock expectations, and whole runs of calls |
| MetaObjects, ConnectionRuns | the mirrored connection tables, and whole runs of changes to them |
| ManualPipelines | two pipelines driven by resumable generators |
| ArgsProducts, BenchmarkRanges, BenchmarkStates, BenchmarkRunners | argument enumeration, power ranges, the iteration counter and the search for an iteration count |
| Base64 | the lenient decoder against section 4 of RFC 4648 |

Objects whose methods change their fields are classes, loops are loops, and each
method is proved against a specification function or an exact description of its
new state. Protocols are state machines over atomic steps, with invariants proved
for every step and so for every run.

Where the code differs from what its comments or its design suggest, the model
follows the code:

- A thief never looks at the queue of the next thread (`StealCoverage`), so with
  two threads nothing is ever stolen (`TwoThreadsNeverSteal`).
- The preview and the pop of a steal are two operations; an activity that must
  not be stolen can end up on a foreign thread (`StealRaceExists`). That happens
  exactly when a thief's pop finds such an activity at the front
  (`AffinityOverRuns`), and never when no other pop comes in between
  (`UndisturbedRunsRespectAffinity`).
- A push may refuse an empty queue and a pop a full one (`SpuriousFull`,
  `SpuriousEmpty`); `RefusedPush` and `RefusedPop` say exactly when a refusal is
  right.
- A thread that loads its index, waits while the ring goes round and then swaps
  can push onto a full ring, which then looks empty (`OverfullLooksEmpty`).
  `BoundedExactly` and `OwnTicketsExactly` say exactly which runs are free of
  that.
- With only the dependency thread in the pool, posting computes an index outside
  the pool (`PostTarget`, `PostWithoutOtherThread`).
- Closing a writer before flushing loses the buffered bytes
  (`CloseBeforeFlush`).
- The version header is written in native byte order, unlike everything after
  it: between machines of different byte order the version arrives with its
  bytes reversed (`VersionBetweenMachines`) and the body is read under the wrong
  version (`ForeignHeader`).
- Adding an earlier expectation to a sequence again can close a cycle
  (`SequenceMadeCycle`); the graph stays acyclic exactly under the condition of
  `EdgeKeepsAcyclic`.
- The iteration counter counts what a skip withheld as if it had run
  (`SkipAfterOne`): it stays right exactly when nothing was still to be granted
  when the skip came (`Skip`), and a benchmark skipped before it starts counts
  its whole maximum once it starts (`SkipBeforeStart`).
- A key set behind the position does not stop the pipeline, which runs on past it
  (`KeyBehindPosition`); `ExecuteTimes` says exactly when nothing beyond the key
  runs.
- When a pipeline starts with fewer activities left than one batch, they run and
  it is Ready; a step count of zero runs everything left (`BatchCases`, `ExecuteUntilReady`).

## Model

| member | source | states |
|---|---|---|
| `MatchMatrices.MatchMatrix.SpaceIndex` | Test/ThirdParty/googletest/googlemock/include/gmock/gmock-matchers.h:3537-3539 | the row-major offset of an edge is inside the matrix |
| `MatchMatrices.FlagPlaces` | Test/ThirdParty/googletest/googlemock/include/gmock/gmock-matchers.h:3520-3539 | flag (l, r) is at l * rhsSize + r, different pairs have different flags, and an edge is a flag that is set |
| `BipartiteMatching.MaxBipartiteMatchState.constructor` | Test/ThirdParty/googletest/googlemock/src/gmock-matchers.cc:126-129 | both vectors start unused, which is a flow |
| `BipartiteMatching.MaxBipartiteMatchState.TryAugment` | Test/ThirdParty/googletest/googlemock/src/gmock-matchers.cc:168-208 | terminates; true exactly when an augmenting path through unseen right nodes starts at its left node, and then the flow is the old one pushed along such a path (so no other left node becomes used or unused); false leaves the flow alone; what was searched is closed, which later certifies the failure |
| `BipartiteMatching.NoPathAfterSearch` | Test/ThirdParty/googletest/googlemock/src/gmock-matchers.cc:184-208 | a search that failed leaves no augmenting path to be found through what was unseen |
| `BipartiteMatching.PushKeepsReferences` | Test/ThirdParty/googletest/googlemock/src/gmock-matchers.cc:219-221 | pushing along a path keeps left and right mutually referent |
| `BipartiteMatching.PushKeepsFlow` | Test/ThirdParty/googletest/googlemock/src/gmock-matchers.cc:168-183 | pushing along a path of edges keeps the flow a flow, and only the start becomes used |
| `BipartiteMatching.PathAvoidsDeadEnd` | Test/ThirdParty/googletest/googlemock/src/gmock-matchers.cc:137-146 | no augmenting path enters a closed set of fully matched right nodes |
| `BipartiteMatching.DeadEndSurvivesPush` | Test/ThirdParty/googletest/googlemock/src/gmock-matchers.cc:137-146 | the certificate of an earlier failure survives every later augmentation |
| `BipartiteMatching.FailureExtendsDeadEnd` | Test/ThirdParty/googletest/googlemock/src/gmock-matchers.cc:137-146 | a failed search extends the certificate to the new left node |
| `BipartiteMatching.DeadEndBoundsMatchings` | Test/ThirdParty/googletest/googlemock/src/gmock-matchers.cc:137-146 | with such a certificate no matching has more pairs than the flow |
| `BipartiteMatching.FlowPairsMatch` | Test/ThirdParty/googletest/googlemock/src/gmock-matchers.cc:156-162 | the used entries of left are a matching of edges |
| `BipartiteMatching.MaxBipartiteMatchState.Compute` | Test/ThirdParty/googletest/googlemock/src/gmock-matchers.cc:132-163 | the pairs are a matching of the graph in ascending order, and no matching of the graph has more pairs, although each left node is searched once |
| `BipartiteMatching.MaxBipartiteMatchState.CollectPairs` | Test/ThirdParty/googletest/googlemock/src/gmock-matchers.cc:156-162 | the list holds exactly the used entries of left, in order |
| `BipartiteMatching.AscendingCountsOnce` | Test/ThirdParty/googletest/googlemock/src/gmock-matchers.cc:156-162 | an ascending list has as many entries as distinct pairs |
| `BipartiteMatching.FindMaxBipartiteMatching` | Test/ThirdParty/googletest/googlemock/src/gmock-matchers.cc:228-230 | a maximum matching of the given matrix |
| `UnorderedElements.CoverageIsSize` | Test/ThirdParty/googletest/googlemock/src/gmock-matchers.cc:437-476 | a pairing covers all matchers (elements) exactly when it has as many pairs as there are matchers (elements) |
| `UnorderedElements.FindPairing` | Test/ThirdParty/googletest/googlemock/src/gmock-matchers.cc:437-476 | true exactly when a matching exists that covers all matchers if the flag is Superset or ExactMatch and all elements if it is Subset or ExactMatch; the pairs found are one, and no matching has more |
| `UnorderedElements.SatisfiableIsPlausible` | Test/ThirdParty/googletest/googlemock/src/gmock-matchers.cc:370-435 | a matrix with a matching that covers a side has no empty row or column on that side, and equal sides when it covers both |
| `UnorderedElements.VerifyMatchMatrix` | Test/ThirdParty/googletest/googlemock/src/gmock-matchers.cc:370-435 | accepts exactly when every matcher has an element if the flag is Superset or ExactMatch, every element a matcher if it is Subset or ExactMatch, and for ExactMatch the sizes agree |
| `UnorderedElements.MatchAndExplain` | Test/ThirdParty/googletest/googlemock/include/gmock/gmock-matchers.h:3641-3651 | the conjunction of both checks is true exactly when a matching exists that covers all matchers (Superset, ExactMatch) and all elements (Subset, ExactMatch) |
| `ThreadPool.StepConserves` | ActivityFramework/Src/Components/TA_ThreadPool.cpp:93-131 | every step keeps each posted activity in exactly one place: one queue, one worker's hand, or finished |
| `ThreadPool.StepStrandsNone` | ActivityFramework/Src/Components/TA_ThreadPool.cpp:99-105 | every step keeps, for each non-empty queue, its worker draining, a token pending or a poster about to release one |
| `ThreadPool.StepRunsOnce` | ActivityFramework/Src/Components/TA_ActivityProxy.h:123-132 | every step keeps: an activity has run at most once, and has run if its ticket is finished |
| `ThreadPoolRuns.StepKeepsInvariant` | ActivityFramework/Src/Components/TA_ThreadPool.cpp:93-131 | the conjunction of all pool invariants is kept by every step of posters, workers and thieves |
| `ThreadPoolRuns.PoolIsSafe` | ActivityFramework/Src/Components/TA_ThreadPool.cpp:93-131 | it holds after every feasible run from the initial pool |
| `ThreadPoolRuns.EveryJobAccounted` | ActivityFramework/Src/Components/TA_ThreadPool.cpp:93-131 | in every run each accepted job is in a queue, in a worker's hand or has run, and in only one of these |
| `ThreadPoolRuns.NoneRunsTwice` | ActivityFramework/Src/Components/TA_ActivityProxy.h:123-132 | in every run no job runs twice |
| `ThreadPoolRuns.StepProgress` | ActivityFramework/Src/Components/TA_ThreadPool.cpp:98-110 | every step other than a post lowers a measure of work left |
| `ThreadPoolRuns.WorkRunsOut` | ActivityFramework/Src/Components/TA_ThreadPool.cpp:98-110 | there is no endless run without further posts |
| `ThreadPoolRuns.AtRestAllRan` | ActivityFramework/Src/Components/TA_ThreadPool.cpp:98-110 | when no step is possible, all queues are empty and every accepted activity has run, none twice |
| `StealAffinity.StepAffinity` | ActivityFramework/Src/Components/TA_ThreadPool.cpp:116-131 | one step breaks affinity exactly when it pops, for a thief, a front that is not stealable |
| `StealAffinity.AffinityOverRuns` | ActivityFramework/Src/Components/TA_ThreadPool.cpp:116-131 | a whole run keeps the activities that are not stealable on their own threads exactly when none of its steps does that; once broken it stays broken |
| `StealAffinity.UndisturbedRunsRespectAffinity` | ActivityFramework/Src/Components/TA_ThreadPool.cpp:122-125 | if nobody pops a queue between a thief's preview and its pop, activities that are not stealable only ever run on their own thread |
| `StealPosts.UntemptingPostsRespectAffinity` | ActivityFramework/Src/Components/TA_ThreadPool.cpp:116-131 | from the posted jobs alone: unless an activity that is not stealable follows a stealable one on some queue and a thread that looks at that queue is given a job, affinity is respected under every schedule |
| `StealRace.StealRaceExists` | ActivityFramework/Src/Components/TA_ThreadPool.cpp:122-125 | such a run exists: with three threads, one in which an activity that is not stealable has run on a foreign thread |
| `StealAffinity.TwoThreadsNeverSteal` | ActivityFramework/Src/Components/TA_ThreadPool.cpp:95-131 | in every run of one or two threads a thief looks at no queue but its own, which it skips, and every activity runs on the thread it was posted to |
| `WorkerRounds.StealAttempt` | ActivityFramework/Src/Components/TA_ThreadPool.cpp:116-131 | an attempt of a worker that no one else disturbs, from the start or after a pop that found its queue emptied: of the queues w+2, w+3, ... up to the one before its own it takes the front of the first whose front is stealable, changing nothing else, and parks exactly when there is none |
| `WorkerRounds.StealCoverage` | ActivityFramework/Src/Components/TA_ThreadPool.cpp:95-131 | those queues are all except its own and the next thread's |
| `WorkerRounds.DrainsInOrder` | ActivityFramework/Src/Components/TA_ThreadPool.cpp:100-105 | a worker that no one disturbs runs its whole queue, oldest first, each activity once on its own thread, before it looks elsewhere |
| `WorkerRounds.StolenThenWaits` | ActivityFramework/Src/Components/TA_ThreadPool.cpp:106-109 | what was stolen runs on the thief, who then waits on its own semaphore again |
| `WorkerRounds.FoundEmpty` | ActivityFramework/Src/Components/TA_ThreadPool.cpp:100-102 | a worker whose own queue was emptied between its test and its pop tests again |
| `PostOrder.PostsAccepted` | ActivityFramework/Src/Components/TA_ThreadPool.h:153-172 | the first 10239 posts of every run are accepted and numbered in order |
| `PostOrder.QueuesStayBounded` | ActivityFramework/Src/Components/TA_ThreadPool.h:167-170 | no queue ever holds more than 10239 activities |
| `PostOrder.FirstInFirstOut` | ActivityFramework/Src/Components/TA_ThreadPool.cpp:93-131 | in every run, thieves included, the activities posted to one thread leave its queue in the order of posting |
| `ThreadPriority.TopPriorityThreadExcept` | ActivityFramework/Src/Components/TA_ThreadPool.h:104-128 | no thread other than the dependency had less queued when it was asked, whatever the busy flags do between two reads; if they do not change, idle comes before busy and then the lower index; the unset index when there is no other thread |
| `ThreadPriority.TopPriorityThread` | ActivityFramework/Src/Components/TA_ThreadPool.h:130-151 | the same over all threads; if the busy flags do not change, busy comes before idle and then the lower index |
| `ThreadPriority.FirstIsUnique` | ActivityFramework/Src/Components/TA_ThreadPool.h:104-151 | that description fits only one thread |
| `ThreadPriority.PostTarget` | ActivityFramework/Src/Components/TA_ThreadPool.h:153-172 | the affinity thread when it exists; otherwise a thread other than the dependency of which no other has less queued, and among equals, if the busy flags do not change, idle before busy and then the lower index; in range exactly when there is a thread other than the dependency |
| `ThreadPriority.PostWithoutOtherThread` | ActivityFramework/Src/Components/TA_ThreadPool.h:159-165 | the instance with one thread, on which the activity depends: the index is outside the pool |
| `ActivityProxies.StepKeepsSafe` | ActivityFramework/Src/Components/TA_ActivityProxy.h:123-132 | every step of a call keeps: at most one call between winning and clearing, and the function is gone only after one run |
| `ActivityProxies.RunsAtMostOnce` | ActivityFramework/Src/Components/TA_ActivityProxy.h:123-132 | in every interleaving of any number of calls the activity runs at most once, and it has run when the function is gone |
| `ActivityProxies.ReturnedMeansRun` | ActivityFramework/Src/Components/TA_ActivityProxy.h:123-132 | in every interleaving, once some call has returned the flag is set for good and the activity has run or exactly one call is running it; when none is, it has run once and the function is gone; once a call has thrown it has run |
| `ActivityProxies.CallsEnd` | ActivityFramework/Src/Components/TA_ActivityProxy.h:123-132 | whatever the other calls do, a call has returned or thrown after four steps of its own |
| `ActivityProxies.FirstCallRuns` | ActivityFramework/Src/Components/TA_ActivityProxy.h:123-132 | a first call that no one disturbs runs the activity, clears the function and returns |
| `ActivityProxies.LateCallsThrow` | ActivityFramework/Src/Components/TA_ActivityProxy.h:123-132 | in every continuation after the function was cleared it stays cleared, the one run stays the only one, and every call that starts throws |
| `ActivityQueue.ActivityQueue.IsFull` | ActivityFramework/Src/Components/TA_ActivityQueue.h:48-50 | true exactly when N - 1 elements are held |
| `ActivityQueue.ActivityQueue.IsEmpty` | ActivityFramework/Src/Components/TA_ActivityQueue.h:52-54 | true exactly when no element is held |
| `ActivityQueue.ActivityQueue.Size` | ActivityFramework/Src/Components/TA_ActivityQueue.h:56-61 | the number of elements held |
| `ActivityQueue.ActivityQueue.Push` | ActivityFramework/Src/Components/TA_ActivityQueue.h:76-87 | appends, or refuses exactly when full and changes nothing |
| `ActivityQueue.ActivityQueue.Pop` | ActivityFramework/Src/Components/TA_ActivityQueue.h:89-100 | removes and returns the oldest element, or nothing exactly when empty |
| `ActivityQueue.ActivityQueue.Top` | ActivityFramework/Src/Components/TA_ActivityQueue.h:102-109 | the oldest element, which stays |
| `QueueInterleaving.StepKeepsInvariant` | ActivityFramework/Src/Components/TA_ActivityQueue.h:63-100 | every step that is no successful swap of a stale index keeps: claimed pops never overtake claimed pushes, occupancy is within 0..N-1, the indices are the counters modulo N, claims match the loaded tickets, and the slots hold what was pushed and not yet popped |
| `QueueInterleaving.SwapClaimsLoaded` | ActivityFramework/Src/Components/TA_ActivityQueue.h:70-96 | a swap that succeeds claims another ticket than the one its thread had loaded exactly when a whole turn lies in between |
| `QueueInterleaving.StepBounded` | ActivityFramework/Src/Components/TA_ActivityQueue.h:70-96 | one step takes a bounded ring out of its bounds exactly when it is a swap that succeeds on a full ring (push) or an empty one (pop) |
| `QueueInterleaving.BoundedExactly` | ActivityFramework/Src/Components/TA_ActivityQueue.h:63-100 | over all runs: every state on the way is within the bounds exactly when no swap of the run succeeds on a full or empty ring, and then the k-th pop gets what the k-th push put in and the slots hold what is queued |
| `QueueInterleaving.OwnTicketsExactly` | ActivityFramework/Src/Components/TA_ActivityQueue.h:63-100 | over all runs: every claim carries the ticket its thread had loaded, so a ticket has one pusher and one popper, exactly when no swap of the run succeeds a whole turn or more after its load |
| `QueueInterleaving.OwnTicketsKeepBounds` | ActivityFramework/Src/Components/TA_ActivityQueue.h:63-100 | a swap that claims its own ticket never overruns: its earlier check against the other index still holds |
| `QueueInterleaving.RingIsSafe` | ActivityFramework/Src/Components/TA_ActivityQueue.h:63-100 | hence over every run without such a stale swap, in particular one in which no load-to-swap window spans a turn: fewer than N elements, the k-th claim on either side by a thread that loaded ticket k, the k-th pop gets what the k-th push put in, and the slots hold what is queued |
| `QueueInterleaving.OverfullLooksEmpty` | ActivityFramework/Src/Components/TA_ActivityQueue.h:63-74 | the failing run: two slots, two threads; one checks for room, the other pushes, pops and pushes, then the first one's push succeeds on the full ring, and both indices are equal as if it were empty |
| `QueueInterleaving.RefusedPush` | ActivityFramework/Src/Components/TA_ActivityQueue.h:66-69 | a push refuses without the queue being full exactly when another push was claimed since it loaded its index |
| `QueueInterleaving.RefusedPop` | ActivityFramework/Src/Components/TA_ActivityQueue.h:92-94 | a pop refuses without the queue being empty exactly when another pop was claimed since it loaded its index |
| `QueueInterleaving.PushAlone` | ActivityFramework/Src/Components/TA_ActivityQueue.h:63-74 | with room, a push that nothing interrupts succeeds, puts its element after all others and changes nothing else |
| `QueueInterleaving.PushAloneFull` | ActivityFramework/Src/Components/TA_ActivityQueue.h:66-69 | without room it is refused and nothing has changed |
| `QueueInterleaving.PopAlone` | ActivityFramework/Src/Components/TA_ActivityQueue.h:89-100 | a pop that nothing interrupts takes the oldest element and changes nothing else |
| `QueueInterleaving.PopAloneEmpty` | ActivityFramework/Src/Components/TA_ActivityQueue.h:92-94 | on an empty ring it is refused and nothing has changed |
| `QueueInterleaving.FailedSwap` | ActivityFramework/Src/Components/TA_ActivityQueue.h:70-96 | an operation whose swap fails without cause is back at the head of its loop and has changed nothing |
| `QueueInterleaving.SpuriousFull` | ActivityFramework/Src/Components/TA_ActivityQueue.h:66-69 | a concrete timely run in which a push refuses although the queue is empty |
| `QueueInterleaving.SpuriousEmpty` | ActivityFramework/Src/Components/TA_ActivityQueue.h:92-94 | a concrete timely run in which a pop refuses although the queue is full |
| `Bytes.LittleEndianRoundTrip` | ActivityFramework/Src/Components/TA_Serialization.h:80-94 | a number below 256^w is recovered from its w bytes |
| `Bytes.BigEndianRoundTrip` | ActivityFramework/Src/Components/TA_Serialization.h:80-94 | the same, most significant byte first |
| `EndianConversion.SwapMirrors16` | ActivityFramework/Src/Components/TA_EndianConversion.h:44-45 | the shift expression exchanges the two bytes, and twice is the identity |
| `EndianConversion.SwapMirrors32` | ActivityFramework/Src/Components/TA_EndianConversion.h:46-48 | the shift expression mirrors the four bytes, and twice is the identity |
| `EndianConversion.SwapMirrors64` | ActivityFramework/Src/Components/TA_EndianConversion.h:49-53 | the shift expression mirrors the eight bytes, and twice is the identity |
| `EndianConversion.SwapEndianInPlace` | ActivityFramework/Src/Components/TA_EndianConversion.h:67-76 | the loop reverses the bytes in place |
| `FileBuffers.BufferWriter.Write` | ActivityFramework/Src/Components/TA_Buffer.h:143-153 | for every buffer size file plus buffer grows by exactly the bytes written, or nothing when the stream is closed |
| `FileBuffers.BufferWriter.Flush` | ActivityFramework/Src/Components/TA_Buffer.h:155-159 | everything written is in the file and the buffer is empty; on a closed stream the buffered bytes are lost |
| `FileBuffers.CloseBeforeFlush` | ActivityFramework/Src/Components/TA_Buffer.h:45-48 | a byte written, then the stream closed, then flushed: the file stays empty |
| `FileBuffers.BufferReader.Read` | ActivityFramework/Src/Components/TA_Buffer.h:87-95 | returns exactly the next bytes of the file, and fails exactly when fewer remain, consuming nothing |
| `FileBuffers.BufferReader.FillBuffer` | ActivityFramework/Src/Components/TA_Buffer.h:105-125 | refilling changes neither what remains nor its order |
| `Codec.RoundTrip` | ActivityFramework/Src/Components/TA_Serialization.h:80-317 | decoding an encoded value followed by any bytes gives the restored value and exactly those bytes, for every nesting of scalars, enumerations, containers, adaptors, arrays, pairs and versioned records, over any prior value and on either byte order |
| `Codec.RestoresExactly` | ActivityFramework/Src/Components/TA_Serialization.h:80-317 | what is restored is the value itself when enumerations fit a byte, no property is newer than the version and appended-to containers start empty |
| `Codec.ContainerRestoresExactly` | ActivityFramework/Src/Components/TA_Serialization.h:96-213 | the same for the elements of each kind of container; a stack is reversed twice |
| `Codec.InsertAllNew` | ActivityFramework/Src/Components/TA_Serialization.h:161-181 | inserting distinct keys one by one gives the same listing |
| `Codec.EncodeInjective` | ActivityFramework/Src/Components/TA_Serialization.h:80-317 | the format is prefix-free: equal byte strings mean equal values and equal rests |
| `Codec.VersionedRecord` | ActivityFramework/Src/Components/TA_Serialization.h:290-317 | a record recovers every property at or below the version and leaves the others as they were |
| `Serializer.StoredForm` | ActivityFramework/Src/Components/TA_Serialization.h:80-86 | on either byte order the stored bytes are most significant first |
| `Serializer.FromStoredForm` | ActivityFramework/Src/Components/TA_Serialization.h:88-94 | reading gives the number of those bytes on either byte order |
| `Serializer.Serializer.Write` | ActivityFramework/Src/Components/TA_Serialization.h:68-317 | the imperative writer appends exactly the encoding of the value, whose bytes the next rows state |
| `Layout.NumberBytes` | ActivityFramework/Src/Components/TA_Serialization.h:80-86 | byte k of a number of w bytes is its digit in base 256, the highest first |
| `Layout.EnumByte` | ActivityFramework/Src/Components/TA_Serialization.h:262-266 | an enumeration is one byte, its value modulo 256 |
| `Layout.ContainerLayout` | ActivityFramework/Src/Components/TA_Serialization.h:96-126 | a container is eight bytes that hold its number of elements, the highest first, and then the encodings of the elements: of a stack from the top, of any other from the front |
| `Layout.ArrayLayout` | ActivityFramework/Src/Components/TA_Serialization.h:96-101 | a fixed array has the same eight bytes, a raw array only its elements in order |
| `Layout.RecordLayout` | ActivityFramework/Src/Components/TA_Serialization.h:290-317 | a record is its properties in order, with nothing for one newer than the version |
| `Layout.EncodedSize` | ActivityFramework/Src/Components/TA_Serialization.h:80-317 | the number of bytes of every value: the width of a number, one for an enumeration, eight more than the elements for a counted container |
| `Serializer.Save` | ActivityFramework/Src/Components/TA_Serialization.h:47-86 | the file is the eight bytes of the version and then that many |
| `Serializer.Serializer.WriteFromTop` | ActivityFramework/Src/Components/TA_Serialization.h:106-111 | popping a copy of the stack writes it top first |
| `Serializer.Deserializer.Read` | ActivityFramework/Src/Components/TA_Serialization.h:74-317 | the imperative reader returns exactly what decoding the remaining bytes gives, and leaves exactly the rest, also when the bytes run out on the way; the next rows state what decoding does then |
| `Layout.NumberCutShort` | ActivityFramework/Src/Components/TA_Serialization.h:88-94 | with too few bytes for a number none is consumed; it keeps its value on a big-endian machine and has its bytes in the opposite order on a little-endian one |
| `Layout.CountCutShort` | ActivityFramework/Src/Components/TA_Serialization.h:138-202 | with fewer than eight bytes for a count none is consumed and no element is read: vectors and stacks are emptied, the others stay as they were |
| `Layout.ElementsCutShort` | ActivityFramework/Src/Components/TA_Serialization.h:138-213 | elements whose bytes are missing are read as zero |
| `Layout.ReadOver` | ActivityFramework/Src/Components/TA_Serialization.h:138-213 | over a container that was not empty: vectors and stacks are replaced, a forward list is filled in front, and lists, queues and multi-containers are appended to |
| `Layout.ReadOverSet` | ActivityFramework/Src/Components/TA_Serialization.h:172-181 | a set keeps its elements and gets each new one once |
| `Layout.ReadOverMap` | ActivityFramework/Src/Components/TA_Serialization.h:161-171 | a map keeps the values of the keys it had and gets each new key once |
| `Layout.FirstValueCounts` | ActivityFramework/Src/Components/TA_Serialization.h:161-171 | of a new key that comes twice the first value counts |
| `Serializer.Deserializer.ReadScalar` | ActivityFramework/Src/Components/TA_Serialization.h:88-94 | a number that can no longer be read consumes nothing and leaves the old image of its target, swapped on a little-endian machine |
| `Serializer.Deserializer.ReadForward` | ActivityFramework/Src/Components/TA_Serialization.h:154-160 | a forward list is filled in order in front of what it held, whether or not the bytes suffice |
| `Serializer.Deserializer.ReadStack` | ActivityFramework/Src/Components/TA_Serialization.h:195-202 | reading at the front of a temporary reverses the order again, whether or not the bytes suffice |
| `Serializer.InsertAllAppend` | ActivityFramework/Src/Components/TA_Serialization.h:148-153 | inserting one more element at the end of the list of elements read |
| `Serializer.Deserializer.constructor` | ActivityFramework/Src/Components/TA_Serialization.h:326-335 | the version comes from the file when a header can be read and is kept otherwise |
| `Serializer.VersionBetweenMachines` | ActivityFramework/Src/Components/TA_Serialization.h:326-335 | the version read has the bytes of the version written, reversed when the byte orders differ; it is the same exactly when they agree or the bytes are a palindrome |
| `Serializer.BodyAcrossVersions` | ActivityFramework/Src/Components/TA_Serialization.h:290-317 | a body written under one version is read back under any version with the same properties |
| `Serializer.LastPropertyExactly` | ActivityFramework/Src/Components/TA_Serialization.h:290-317 | for a property appended to properties that the version written and the version read agree on: records with two different values of it both come back exactly when the versions agree on having it |
| `Serializer.ForeignHeader` | ActivityFramework/Src/Components/TA_Serialization.h:298-315 | version 1 read on the other byte order: a property newer than it, never written, is read and its value lost |
| `Serializer.SaveAndLoad` | ActivityFramework/Src/Components/TA_Serialization.h:47-340 | for all buffer sizes and byte orders on both sides the loaded value is the body decoded under the version as it arrives; it is the value saved (restored) when that version has the same properties, so always between machines of one byte order, whatever version the reader was given |
| `Barrier.StepKeepsInvariant` | Benchmark/benchmark-1.9.0/src/mutex.h:99-151 | every step keeps the counts right, loses no wake-up of a thread or of the main thread, and has one last thread per phase |
| `Barrier.BarrierIsSafe` | Benchmark/benchmark-1.9.0/src/mutex.h:99-151 | it holds after every feasible run, with threads removed at any time: no more entered than running, one last thread per phase, and the main thread returns only when every thread has been counted as complete |
| `Barrier.EnteredAtMostRunning` | Benchmark/benchmark-1.9.0/src/mutex.h:126-146 | entered never exceeds the running threads |
| `Barrier.EntryCheckHolds` | Benchmark/benchmark-1.9.0/src/mutex.h:132-134 | the check at entry never fails |
| `Barrier.PhaseEndsTogether` | Benchmark/benchmark-1.9.0/src/mutex.h:135-149 | a phase ends only when every other running thread waits in it, and the thread that ends it is recorded as its last |
| `Barrier.WaiterLeavesFinishedPhase` | Benchmark/benchmark-1.9.0/src/mutex.h:138-143 | a waiter returns false only from a phase that has ended |
| `Barrier.SomeoneMayLeave` | Benchmark/benchmark-1.9.0/src/mutex.h:138-144 | when all running threads wait, some wait predicate is true |
| `Barrier.WhoIsAwake` | Benchmark/benchmark-1.9.0/src/mutex.h:138-151 | a waiter is awake after a step exactly when that step woke it, by a notification, a removal or spuriously, or when it was awake and has not looked yet |
| `Barrier.NoDeadlock` | Benchmark/benchmark-1.9.0/src/thread_manager.h:21-37 | never are all live threads and the main thread blocked with no step to take |
| `BarrierProgress.BarrierComesToRest` | Benchmark/benchmark-1.9.0/src/mutex.h:99-151 | without entries, removals and spurious wake-ups there is no endless run: rechecks, notifications, completions and the main thread's evaluations run out |
| `BarrierProgress.WaitersWaitForSomeone` | Benchmark/benchmark-1.9.0/src/mutex.h:135-149 | at rest, whoever waits in the barrier waits for a thread that is still outside |
| `Prerequisites.FewerBelow` | Test/ThirdParty/googletest/googlemock/src/gmock-spec-builders.cc:141-155 | on an acyclic graph a prerequisite reaches strictly fewer nodes, so the tree below a node is finite |
| `Prerequisites.Pushed` | Test/ThirdParty/googletest/googlemock/src/gmock-spec-builders.cc:142-154 | after one iteration the stack holds less work than before the pop, without a visited set, and everything reached is still covered |
| `Prerequisites.EdgeKeepsAcyclic` | Test/ThirdParty/googletest/googlemock/src/gmock-spec-builders.cc:760-768 | a new prerequisite keeps the graph acyclic exactly when it is another node that does not come after |
| `Prerequisites.RetiringEnds` | Test/ThirdParty/googletest/googlemock/src/gmock-spec-builders.cc:111-134 | an empty stack means that exactly the reached nodes were retired and the retired set is closed |
| `Prerequisites.CallKeepsSound` | Test/ThirdParty/googletest/googlemock/include/gmock/gmock-spec-builders.h:1236-1241 | retiring what a called node reaches keeps: no cycles, retired sets closed, called and satisfied nodes have only satisfied, retired prerequisites |
| `Prerequisites.EdgeKeepsSound` | Test/ThirdParty/googletest/googlemock/src/gmock-spec-builders.cc:760-768 | a prerequisite added to an expectation not yet called or retired keeps the same |
| `Expectations.ExpectationBase.AllPrerequisitesAreSatisfied` | Test/ThirdParty/googletest/googlemock/src/gmock-spec-builders.cc:138-157 | terminates on every acyclic graph; true exactly when all direct and indirect prerequisites are satisfied |
| `Expectations.ExpectationBase.FindUnsatisfiedPrerequisites` | Test/ThirdParty/googletest/googlemock/src/gmock-spec-builders.cc:160-185 | terminates; adds exactly the unsatisfied prerequisites reached through satisfied, never-called ones |
| `Expectations.ReportIsFaithful` | Test/ThirdParty/googletest/googlemock/src/gmock-spec-builders.cc:174-181 | in every state that calls and definitions lead to, that report is empty exactly when all prerequisites are satisfied, and names only unsatisfied ones |
| `ExpectationRuns.RunsStayConsistent` | Test/ThirdParty/googletest/googlemock/include/gmock/gmock-spec-builders.h:1215-1250 | after every run of creations, orderings and calls: no cycles, prerequisites retired first, called and satisfied expectations have only satisfied, retired prerequisites |
| `ExpectationRuns.CallsKeepOrder` | Test/ThirdParty/googletest/googlemock/include/gmock/gmock-spec-builders.h:1236-1241 | in every run a call within its limit finds everything before its expectation satisfied, and none of that handles a call in any continuation |
| `ExpectationRuns.ExcessBlocks` | Test/ThirdParty/googletest/googlemock/include/gmock/gmock-spec-builders.h:1215-1250 | once an expectation has had one call too many, nothing that comes after it handles a call in any continuation |
| `ExpectationRuns.RetiresExactly` | Test/ThirdParty/googletest/googlemock/include/gmock/gmock-spec-builders.h:1215-1250 | an event retires exactly what comes before an expectation that takes a call within its limit, and that expectation when this is its last call and it retires on saturation |
| `ExpectationRuns.HandlesExactly` | Test/ThirdParty/googletest/googlemock/include/gmock/gmock-spec-builders.h:1121-1131 | an expectation may take a call exactly when it is active and the count of everything before it is between its bounds |
| `ExpectationRuns.SaturationIsFinal` | Test/ThirdParty/googletest/googlemock/include/gmock/gmock-spec-builders.h:1239-1241 | after the call that saturates it, an expectation that retires on saturation handles no call in any continuation |
| `ExpectationRuns.OnlySuccessorsRetire` | Test/ThirdParty/googletest/googlemock/include/gmock/gmock-spec-builders.h:1236-1241 | an expectation that does not retire on saturation is active after a run exactly when it was before and nothing that comes after it took a call within its limit |
| `ExpectationRuns.ObjectsAgree` | Test/ThirdParty/googletest/googlemock/include/gmock/gmock-spec-builders.h:1121-1131 | the objects in memory are in order exactly when the state of the run is consistent, and an expectation may handle a call exactly when the run can continue with it |
| `Prerequisites.MissingIsReported` | Test/ThirdParty/googletest/googlemock/src/gmock-spec-builders.cc:174-181 | the same about graphs: skipping the prerequisites of called expectations misses nothing |
| `Expectations.ExpectationBase.RetireAllPreRequisites` | Test/ThirdParty/googletest/googlemock/src/gmock-spec-builders.cc:111-134 | terminates on every graph, even a cyclic one; retires exactly all direct and indirect prerequisites and re-establishes that prerequisites are retired first |
| `Expectations.ExpectationBase.ShouldHandleArguments` | Test/ThirdParty/googletest/googlemock/include/gmock/gmock-spec-builders.h:1121-1131 | true exactly for a matching, unretired expectation everything before which has been called between its minimum and its maximum number of times |
| `Expectations.ExpectationBase.GetActionForArguments` | Test/ThirdParty/googletest/googlemock/include/gmock/gmock-spec-builders.h:1215-1250 | counts the call and no other; an excessive one retires nothing, any other retires what comes before; it is itself retired exactly when it was not excessive, retires on saturation and has reached the maximum; the order invariant is kept, and the whole is one step of the runs in ExpectationRuns |
| `Expectations.ExpectationBase.AddPrerequisite` | Test/ThirdParty/googletest/googlemock/include/gmock/gmock-spec-builders.h:976-978 | adds one edge, once, and keeps the order invariant when it makes no cycle |
| `Expectations.NewExpectation` | Test/ThirdParty/googletest/googlemock/include/gmock/gmock-spec-builders.h:1532-1545 | a new expectation has no prerequisites and keeps the order invariant |
| `Expectations.Sequence.AddExpectation` | Test/ThirdParty/googletest/googlemock/src/gmock-spec-builders.cc:760-768 | links to the last expectation unless there is none or it is the same; keeps the order invariant when that makes no cycle |
| `Expectations.SequenceMadeCycle` | Test/ThirdParty/googletest/googlemock/src/gmock-spec-builders.cc:760-768 | adding two expectations and then the first again leaves a graph with a cycle |
| `MetaObjects.RegisterConnection` | ActivityFramework/Src/Components/TA_MetaObject.h:855-937 | refuses exactly when the same connection exists; otherwise one new connection is at the end of both tables; mirror, uniqueness and liveness of all tables are kept |
| `MetaObjects.RegisterLambda` | ActivityFramework/Src/Components/TA_MetaObject.h:831-853 | refuses exactly when the same lambda is connected; otherwise the new connection is only in the sender's table; the table invariant is kept |
| `MetaObjects.UnregisterConnection` | ActivityFramework/Src/Components/TA_MetaObject.h:773-829 | removes exactly the first fitting connection from both tables, changing no other row, and afterwards none fits; true exactly when there was one and the receiver had an input for the slot, which a method connection always has; the table invariant is kept |
| `MetaObjects.UnregisterHolder` | ActivityFramework/Src/Components/TA_MetaObject.h:745-771 | removes exactly the held connection, even when one like it was registered again, or only empties the holder when a shared sender is gone; the table invariant is kept |
| `MetaObjects.MetaObject.Destroy` | ActivityFramework/Src/Components/TA_MetaObject.h:663-695 | every other object's tables lose exactly the connections from and to the destroyed one, in both ownership cases (one step of the runs in ConnectionRuns); the tables of the live objects mention only live objects again |
| `MetaObjects.NewObject` | ActivityFramework/Src/Components/TA_MetaObject.h:80-81 | a new object with empty tables keeps the table invariant |
| `MetaObjects.IsConnectionExisted` | ActivityFramework/Src/Components/TA_MetaObject.h:711-724 | true exactly when such a connection is registered |
| `ConnectionRuns.FirstFitIs` | ActivityFramework/Src/Components/TA_MetaObject.h:711-724 | a connection is found by its signal, receiver and slot, and the first such is the one found |
| `ConnectionRuns.WhatCoexists` | ActivityFramework/Src/Components/TA_MetaObject.h:855-937 | next to one connection another can be made exactly when it has another sender or differs in signal, receiver or slot |
| `MetaObjects.RegisterThenUnregister` | ActivityFramework/Src/Components/TA_MetaObject.h:773-937 | unregistering undoes registering: both tables are as before |
| `MetaObjects.DropKeepsLinked` | ActivityFramework/Src/Components/TA_MetaObject.h:663-695 | removing any set of connections from both sides keeps mirror and uniqueness |
| `MetaObjects.DestroyKeepsLinked` | ActivityFramework/Src/Components/TA_MetaObject.h:663-695 | removing an object with all its connections keeps mirror, uniqueness and liveness |
| `ConnectionRuns.TablesStayLinked` | ActivityFramework/Src/Components/TA_MetaObject.h:655-937 | after every run of creations, registrations, removals and destructions, in any order, the tables mirror each other, hold no duplicates and mention only objects that exist |
| `ConnectionRuns.NothingDangles` | ActivityFramework/Src/Components/TA_MetaObject.h:663-695 | once an object is destroyed no table mentions it, in any continuation |
| `ConnectionRuns.ConnectionLasts` | ActivityFramework/Src/Components/TA_MetaObject.h:773-937 | a connection stays in its tables in every continuation that neither removes it nor destroys one of its two objects |
| `ManualPipelines.ManualStepsChainPipeline.Next` | ActivityFramework/Src/Components/TA_ManualStepsChainPipeline.cpp:21-40 | resuming runs a contiguous block whose size is given in closed form for every step count and position, and suspends exactly after a whole batch |
| `ManualPipelines.ManualStepsChainPipeline.Execute` | ActivityFramework/Src/Components/TA_ManualStepsChainPipeline.cpp:46-52 | an execution that leaves the pipeline Waiting ran exactly the next batch of activities; results change only there |
| `ManualPipelines.ManualStepsChainPipeline.ResultsShow` | ActivityFramework/Src/Components/TA_ManualStepsChainPipeline.cpp:28-34 | the results are the outcomes of the activities that have run, and of no others |
| `ManualPipelines.BatchCases` | ActivityFramework/Src/Components/TA_ManualStepsChainPipeline.cpp:21-40 | a batch that fits runs whole; at the start a step count beyond the number of activities runs none and any other that does not fit from there on runs what is left; later a batch that does not fit runs none |
| `ManualPipelines.ManualStepsChainPipeline.ExecuteUntilReady` | ActivityFramework/Src/Components/TA_ManualStepsChainPipeline.cpp:21-52 | for every start and every fixed step count s: when start + s <= n, floor((n - start) / s) + 1 executions run exactly the activities from start on, floor((n - start) / s) * s of them, in order and each once; otherwise one execution runs all that is left, or nothing when s > n |
| `ManualPipelines.ManualKeyActivityChainPipeline.Execute` | ActivityFramework/Src/Components/TA_ManualKeyActivityChainPipeline.cpp:21-41 | an execution stops at the next activity, or again at the key, and runs it only if it has not run |
| `ManualPipelines.ManualKeyActivityChainPipeline.ResultsShow` | ActivityFramework/Src/Components/TA_ManualKeyActivityChainPipeline.cpp:26-34 | results and executed flags are those of the activities that have run, and of no others |
| `ManualPipelines.ManualKeyActivityChainPipeline.ExecuteTimes` | ActivityFramework/Src/Components/TA_ManualKeyActivityChainPipeline.cpp:21-41 | for every key and position: repeated executions run nothing beyond the key exactly when there are none, the position is not beyond the key, or nothing is left; from a position at or before a key in range it ends up parked at the key; from the beginning t executions have run the first t activities, up to a key ahead and otherwise up to the end |
| `ManualPipelines.KeyHolds` | ActivityFramework/Src/Components/TA_ManualKeyActivityChainPipeline.cpp:24-39 | the same of the generator alone: what it runs stays at or before the key exactly when its next stop does, or it is at its end |
| `ManualPipelines.ParkedAtKey` | ActivityFramework/Src/Components/TA_ManualKeyActivityChainPipeline.cpp:35-38 | a generator that stops at or before a key in range stays suspended at the key |
| `ManualPipelines.KeyBehindPosition` | ActivityFramework/Src/Components/TA_ManualKeyActivityChainPipeline.cpp:47-54 | the instance: three activities, two executions, the key set to 0, and the third execution runs activity 2 |
| `ArgsProducts.Benchmark.ArgsProduct` | Benchmark/benchmark-1.9.0/src/benchmark_register.cc:274-300 | appends the product whose i-th tuple is at the mixed-radix digits of i, least significant first |
| `ArgsProducts.Odometer` | Benchmark/benchmark-1.9.0/src/benchmark_register.cc:293-296 | the do-while loop is the successor on positions, carries and wrap-around included |
| `ArgsProducts.DigitsOfNext` | Benchmark/benchmark-1.9.0/src/benchmark_register.cc:293-296 | turning the odometer adds one to the number it shows |
| `ArgsProducts.DigitAt` | Benchmark/benchmark-1.9.0/src/benchmark_register.cc:278-297 | position k of tuple i is i divided by the product of the sizes before k, modulo the size of list k: the first list changes fastest |
| `ArgsProducts.DigitsOfNumber` | Benchmark/benchmark-1.9.0/src/benchmark_register.cc:278-297 | every tuple of positions is the digits of its number, which is below the total |
| `ArgsProducts.NumberOfDigits` | Benchmark/benchmark-1.9.0/src/benchmark_register.cc:278-297 | every number below the total is the number of its digits |
| `ArgsProducts.EveryTupleOnce` | Benchmark/benchmark-1.9.0/src/benchmark_register.cc:278-297 | every combination of positions is in the product, at exactly one place |
| `BenchmarkRanges.AddPowers` | Benchmark/benchmark-1.9.0/src/benchmark_register.h:15-39 | appends exactly the powers of mult in the interval, strictly increasing, without overflow |
| `BenchmarkRanges.GuardIsExact` | Benchmark/benchmark-1.9.0/src/benchmark_register.h:33-35 | the guard stops the loop exactly when the next multiplication would overflow |
| `BenchmarkRanges.NegatedAndReversed` | Benchmark/benchmark-1.9.0/src/benchmark_register.h:57-58 | negating and reversing gives exactly the negated powers, strictly increasing |
| `BenchmarkRanges.AddNegatedPowers` | Benchmark/benchmark-1.9.0/src/benchmark_register.h:41-59 | appends exactly the negated powers in the interval, strictly increasing, without overflow |
| `BenchmarkRanges.AddRange` | Benchmark/benchmark-1.9.0/src/benchmark_register.h:61-104 | appends, in increasing order and without overflow for any bounds of the type, exactly lo, hi, zero when in range and every power of mult and negated power between them |
| `BenchmarkRanges.PartsMakeRange` | Benchmark/benchmark-1.9.0/src/benchmark_register.h:86-104 | the negative powers, zero, the positive powers and hi unless it is there already make up that list |
| `BenchmarkStates.State.KeepRunningInternal` | Benchmark/benchmark-1.9.0/include/benchmark/benchmark.h:1036-1062 | grants exactly while the maximum is not reached and the benchmark is not skipped; the iterations granted are counted exactly, the last batch's excess included |
| `BenchmarkStates.State.Iterations` | Benchmark/benchmark-1.9.0/include/benchmark/benchmark.h:965-970 | in every state the count is what was granted plus what a skip withheld, hence exact unless a skip withheld something |
| `BenchmarkStates.State.Skip` | Benchmark/benchmark-1.9.0/src/benchmark.cc:268-292 | withholds exactly what was still to be granted: a right count stays right exactly when that was nothing |
| `BenchmarkStates.State.StartKeepRunning` | Benchmark/benchmark-1.9.0/src/benchmark.cc:303-312 | on a benchmark skipped before it the whole maximum is counted as run |
| `BenchmarkStates.SkipAfterOne` | Benchmark/benchmark-1.9.0/src/benchmark.cc:268-292 | one of ten iterations granted, then skipped: ten are counted |
| `BenchmarkStates.SkipBeforeStart` | Benchmark/benchmark-1.9.0/src/benchmark.cc:268-325 | skipped before the first call: none are counted before that call and ten after it |
| `BenchmarkStates.SkipAfterAll` | Benchmark/benchmark-1.9.0/src/benchmark.cc:268-292 | skipped after all ten were granted: the count is right |
| `BenchmarkStates.State.RunBenchmark` | Benchmark/benchmark-1.9.0/include/benchmark/benchmark.h:1025-1062 | with batches of any sizes and a skip at any of them the loop ends; unless skipped at least the requested iterations were granted and fewer than a batch more; after a skip the count is right exactly when the requested iterations had been granted |
| `BenchmarkRunners.AverageAtLeast` | Benchmark/benchmark-1.9.0/src/benchmark_runner.cc:298-300 | if every thread completed the requested iterations, so did the average that is reported |
| `BenchmarkRunners.AverageOfEqual` | Benchmark/benchmark-1.9.0/src/benchmark_runner.cc:298-300 | when all threads completed the same number, that is the average |
| `BenchmarkRunners.WantedBounds` | Benchmark/benchmark-1.9.0/src/benchmark_runner.cc:313-330 | the wish is strictly more than, and at most 14 times, the completed iterations |
| `BenchmarkRunners.Significance` | Benchmark/benchmark-1.9.0/src/benchmark_runner.cc:320-325 | a significant round took more than a tenth of the time, which bounds its multiplier by 14 |
| `BenchmarkRunners.BenchmarkRunner.TimeUsed` | Benchmark/benchmark-1.9.0/src/benchmark_runner.cc:298-309 | a round counts the iterations per thread, rounded down, and is judged by the manual time if that is asked for, else by the real time if that is asked for, else by the CPU time |
| `BenchmarkRunners.BenchmarkRunner.ReportedWhen` | Benchmark/benchmark-1.9.0/src/benchmark_runner.cc:337-351 | reported when skipped, at 10^12 iterations, when the time suffices, or when the real time is five times the limit and no manual time is asked for |
| `BenchmarkRunners.BenchmarkRunner.PredictedAfter` | Benchmark/benchmark-1.9.0/src/benchmark_runner.cc:313-336 | after a significant round the next count is the one that takes 1.4 times the limit at the same speed, rounded, at least one more and at most 10^12 |
| `BenchmarkRunners.BenchmarkRunner.PredictNumItersNeeded` | Benchmark/benchmark-1.9.0/src/benchmark_runner.cc:313-336 | strictly more than completed, at most 14 times as many and never above the maximum; ten times as many after a short round |
| `BenchmarkRunners.BenchmarkRunner.RunWarmUp` | Benchmark/benchmark-1.9.0/src/benchmark_runner.cc:362-401 | the same loop against the warm-up time ends for every clock, and the iteration count is restored |
| `BenchmarkRunners.BenchmarkRunner.DoOneRepetition` | Benchmark/benchmark-1.9.0/src/benchmark_runner.cc:438-511 | ends for every clock; what is reported is what the last round measured, after rejected rounds that started from the count before any warm-up; only the first repetition without an explicit count searches, any other runs one round with the known count |
| `BenchmarkRunners.BenchmarkRunner.SearchIterations` | Benchmark/benchmark-1.9.0/src/benchmark_runner.cc:457-480 | the loop of rounds ends for every clock; each rejected round is what was measured, was not enough, and leads to strictly more iterations, at most 14 times what it completed; the last round completed at least what it was asked for unless skipped |
| `BenchmarkRunners.BenchmarkRunner.SearchedMeans` | Benchmark/benchmark-1.9.0/src/benchmark_runner.cc:457-480 | the same round by round, with the limits written out: a rejected round is what the world measured for its count, is short of all of them, and is followed by a larger count of at most 14 times what it completed and at most 10^12 |
| `BenchmarkRunners.BenchmarkRunner.RejectedNext` | Benchmark/benchmark-1.9.0/src/benchmark_runner.cc:471-479 | one more rejected round keeps the chain growing |
| `Base64.TableIsInverse` | Test/ThirdParty/googletest/googlemock/src/gmock-internal-utils.cc:201-219 | the generated table gives the position of a character in the alphabet, and a value of 64 or more exactly outside it |
| `Base64.AcceptedAre` | Test/ThirdParty/googletest/googlemock/src/gmock-internal-utils.cc:225-238 | accepted are exactly the strings of blanks, tabs, line and page breaks, '=', letters, digits, '+' and '/' |
| `Base64.TestVectors` | Test/ThirdParty/googletest/googlemock/src/gmock-internal-utils.cc:218-220 | the encodings of the first four test vectors in section 10 of RFC 4648 |
| `Base64.LookupFinds` | Test/ThirdParty/googletest/googlemock/src/gmock-internal-utils.cc:201-206 | the recursion finds the first occurrence, or 65 |
| `Base64.Base64Unescape` | Test/ThirdParty/googletest/googlemock/src/gmock-internal-utils.cc:221-248 | over ASCII input it succeeds exactly when every character is white space, '=' or in the alphabet; the output is then the bytes of the sextets four at a time, and empty otherwise |
| `Base64.TakeByte` | Test/ThirdParty/googletest/googlemock/src/gmock-internal-utils.cc:239-244 | one more sextet completes exactly the next byte, at each of the three bit positions |
| `Base64.UnpackNext` | Test/ThirdParty/googletest/googlemock/src/gmock-internal-utils.cc:235-244 | decoding by groups of four agrees with decoding one sextet at a time |
| `Base64.UnpackOfPack` | Test/ThirdParty/googletest/googlemock/src/gmock-internal-utils.cc:221-248 | unpacking the sextets of section 4 of RFC 4648 gives the bytes back |
| `Base64.DecodesToOriginal` | Test/ThirdParty/googletest/googlemock/src/gmock-internal-utils.cc:221-248 | the encoding of any bytes, with white space and '=' put in or taken out anywhere, decodes to them |
| `Base64.RoundTrip` | Test/ThirdParty/googletest/googlemock/src/gmock-internal-utils.cc:221-248 | the decoder returns the original bytes for every string that is their encoding with white space and '=' put in or taken out anywhere |

## Left out

- Weak memory orderings: every atomic operation is one step of one global order.
- The gap between claiming a slot of the ring and storing into or loading from it: the model does both with the claim.
- StealPosts.UntemptingPostsRespectAffinity: one direction only; whether a schedule breaking affinity exists for given tempting posts also depends on queue capacities and on where the other jobs go.
- Shutdown and detach of the pool, its Android variant, exceptions thrown by activities, the semaphore's maximum count and the busy flags of the workers.
- ThreadPool.StepRunsOnce: each proxy is posted once; a second call of a finished proxy throws, which ActivityProxies models but the pool does not.
- Codec.RoundTrip: counts below 2^31, since the reading loops count with a 32-bit int; a set, map or priority queue is given by the order in which it hands out its elements, so comparators and hashing are not modelled.
- Codec: pointers are written as what they point to; null pointers write nothing and are left out, as are reflection and floating point beyond its bit pattern.
- Serializer.Deserializer.Read: a local that the code leaves uninitialised starts as zero, which only shows when the bytes run out; a count read from a damaged file is not limited to 32 bits.
- FileBuffers.BufferReader.Read: reading starts at the beginning of the file and the buffer holds at least one scalar; device errors are left out.
- EndianConversion: the by-value swap of signed types, whose right shifts extend the sign.
- Barrier: the mutex is a step boundary and spurious wake-ups are allowed; thread creation and joining are left out.
- Expectations: cardinalities are the two-bounded kind, the call count is unbounded, and the iteration order of a prerequisite set (by address) is arbitrary. Matching of arguments is a parameter; actions, messages and locking are left out.
- ExpectationRuns: an expectation gets prerequisites before it is called or retired, and not into a cycle; matching, and which expectation is asked first, are left to the run.
- MetaObjects: each table operation is one step although the code may run its two halves on two threads; auto-destroying lambda connections and copying of objects do not keep the mirror and are left out, as are slot calls.
- MetaObjects.UnregisterHolder: the public call throws before it gets here when a shared sender is gone; a sender that was not shared must still exist.
- ManualPipelines: activities are added before the first execution and the executions are not concurrent; after a reset only the result list is new, so running again is left out. Step counts are far below 2^31.
- ArgsProducts: the product of the list lengths does not overflow, and there is at least one list; with none the code reads past its index vector.
- BenchmarkRanges: the vector's allocation; mult is any number from 2 on.
- BenchmarkRunners: floating point rounding (times are exact reals), counters, memory and profiler runs, reports; what a round measures is an arbitrary function of its number and size. Negative explicit counts, and times that are not numbers, are left out.
- BenchmarkStates: timers and the range-based loop.
- Base64.Base64Unescape: bytes outside ASCII, for which the code's table index is out of range.
- MatchMatrices: randomised and enumerated graphs for testing; textual explanations of a mismatch in UnorderedElements.
- Files, clocks, performance counters, CPU detection, regular expressions, reporters, flag parsing and the registry of mocks.
