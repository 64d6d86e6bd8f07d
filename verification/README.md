# LibAnt: models and proofs

A Dafny model of the parts of LibAnt that carry hard guarantees, with proofs of those
guarantees for all inputs, all runs and all interleavings. `dafny verify dfyconfig.toml`
checks the whole project.

| files | what they model |
|---|---|
| `Common` | shared definitions: optional values, bytes and little-endian words, multiplication and division facts |
| `RingLayout`, `RingSteps`, `RingProgress`, `RingQueue` | the shared-memory single-producer/single-consumer ring: its byte layout; every interleaving of the shared loads and stores of `Push` and `Pop`, and what the two answer; the methods as written |
| `Bigits`, `BigintCompare`, `BigintSquare`, `Bigint` | {fmt}'s `bigint`: a number is the sum of bigit[i] * 2^(32(i + exp)) |
| `Rounding`, `FallbackFormat`, `FallbackSetup` | `fallback_format` for a given number of digits, from significand and exponent to the decimal digits |
| `ThreadPool`, `ThreadPoolRuns`, `ThreadPoolResults`, `ThreadPoolObject` | `ThreadPool` and `ThreadPoolEx` as one transition system (`Kind` tells them apart): a critical section is one step, everything outside the lock is a step of its own, waits end at any time |
| `FormatParser`, `FormatRender`, `FormatFlaws` | {fmt}'s format-string parser, both scanning algorithms, strings rendered from their parts, and the flaws at which parsing ends |
| `Xxtea`, `XxteaKnownAnswer` | the XXTEA cipher and its framing, and a published test vector |
| `InternetChecksum`, `PacketChecksum` | the Internet checksum and its IPv4 and IPv6 users, on a little-endian host |
| `HttpClient`, `HttpClientObject` | the control state of `BaseHttpClient`: queue, retries, all operations under way, re-entrant callbacks |
| `Ip6` | the four walks over IPv6 extension headers |
| `BinaryCodec`, `BinaryStreams` | byte orders, `BinaryWriter`, `BinaryReader`, `BinaryBuffer` |

Conventions. Machine integers are unbounded numbers with the width written out where it
matters (`% 0x1_0000_0000`, types such as `Bigit`, `DoubleBigit`, `Word`, `Byte`, whose
bounds are proof obligations at every assignment). A state machine is a function
`Next(config, state, action)`; a run is any list of actions, actions that are not possible
leave the state alone, and `Reachable` states are those of some run. Where the source
updates an object step by step there is a class or an in-place method. The classes of the
concurrent parts are valid exactly when their state satisfies the invariant of the state
machine; every method keeps that, takes the step of the state machine, and states what its
caller gets.

What the proofs found in the code, each with an exact condition:

- `compare` is a correct "less than r" test for every left operand exactly when r's lowest
  bigit is nonzero (`CompareFaithfulIff`); `fallback_format` is still right, because in the
  branches where low bigits may be zero a tie cannot occur (`NoTieInteger`, `NoTieFraction`).
- The borrow loop of `subtract_aligned` does not advance: when it meets a zero bigit the
  result is too large by (2^32 - 1) units of that bigit (`SubAlignedVal`). `divmod_assign`
  never meets one with a numerator at most one bigit longer than the divisor, and never
  returns with a longer one (`DivmodDiverges`).
- `Stop` drains a pool on every run exactly when at least one worker is kept
  (`DrainsIffOneKept`); a pool without kept workers can strand a task (`Stranded`).
- XXTEA decryption rejects the encryption of the empty string, and only that one (`RoundTrip`).
- The ICMP checksum computed over the whole packet is the one of RFC 792 exactly when the
  message is not all zero (`IcmpOverWholePacket`, and `IcmpZeroExample` for such a packet).
- A UDP checksum over IPv6 that comes out as zero is stored as zero, where section 8.1 of
  RFC 8200 asks for FFFF; `UdpZeroIff` says when, `UdpZeroExample` gives a packet.
- A string behind a length prefix is read back exactly when its length fits the prefix
  (`TextReadBackIff`).

## Model

| member | source | states |
|---|---|---|
| `RingLayout.DecodeFrame` | src/interprocess/containers/shm_circular_buf_queue.cpp:165-169 | writing outside the bytes from Head to Tail changes nothing that is queued |
| `RingLayout.DecodeAppend` | src/interprocess/containers/shm_circular_buf_queue.cpp:166-169 | moving Tail over a well-formed block appends exactly its payload to what the ring decodes to |
| `RingLayout.DecodePush` | src/interprocess/containers/shm_circular_buf_queue.cpp:160-174 | writing length and data at Tail and moving Tail appends the pushed payload |
| `RingLayout.DecodeWrap` | src/interprocess/containers/shm_circular_buf_queue.cpp:184-190 | moving Tail to the start behind a pad, or behind fewer than 4 bytes, leaves the queued payloads the same |
| `RingSteps.ProducerKeeps` | src/interprocess/containers/shm_circular_buf_queue.cpp:160-194 | every single shared access of Push keeps the invariant of both sides, wherever the consumer stands |
| `RingSteps.ConsumerKeeps` | src/interprocess/containers/shm_circular_buf_queue.cpp:141-158 | every single shared access of Pop keeps the invariant of both sides, wherever the producer stands |
| `RingSteps.RunKeeps` | src/interprocess/containers/shm_circular_buf_queue.cpp:63-68 | the invariant holds after every interleaving that starts from Create |
| `RingSteps.PopReturnsPushedInOrder` | src/interprocess/containers/shm_circular_buf_queue.cpp:141-174 | in every interleaving the payloads Pop returned are a prefix of those whose Push returned true, and the bytes from Head to Tail, across the wrap, decode to exactly the rest |
| `RingSteps.LoanIntact` | include/libant/interprocess/containers/shm_circular_buf_queue.h:186-204 | until the next Pop, no producer step touches the length or the data of the block Pop handed out |
| `RingSteps.NoFault` | include/libant/interprocess/containers/shm_circular_buf_queue.h:186-235 | no run fails Pop's assertion, accesses memory outside the data area or wraps tail + len + ElemMaxSize; Head and Tail stay in [80, ShmSize], and Tail is below Head exactly when it has wrapped |
| `RingProgress.EmptyOnlyWhenDrained` | src/interprocess/containers/shm_circular_buf_queue.cpp:143-151 | in every interleaving Pop answers "empty" only when every payload pushed so far has been handed out |
| `RingProgress.PopWaitFree` | src/interprocess/containers/shm_circular_buf_queue.cpp:141-158 | whatever the producer does in between, Pop returns within fifteen of its own shared accesses, and if anything was queued when it was called it returns the oldest payload not yet handed out |
| `RingProgress.PushStep` | src/interprocess/containers/shm_circular_buf_queue.cpp:160-194 | every shared access of Push goes on with the same payload and prospect, counting its polls one by one, or ends it as that prospect says |
| `RingProgress.FullOnlyAfterTenPolls` | include/libant/interprocess/containers/shm_circular_buf_queue.h:186-222 | in every interleaving Push accepts its payload, or gives up at a tenth poll that sees no room or no chance to wrap |
| `RingProgress.PushAlone` | src/interprocess/containers/shm_circular_buf_queue.cpp:160-194 | a Push running alone can end within 31 shared accesses and one for each byte, and however it runs it accepts exactly when the one-thread Push does |
| `RingQueue.ShmCircularBufQueue.constructor` | src/interprocess/containers/shm_circular_buf_queue.cpp:19-72 | Create makes an empty valid ring of the requested sizes |
| `RingQueue.ShmCircularBufQueue.PushWait` | include/libant/interprocess/containers/shm_circular_buf_queue.h:186-204 | the ten polls succeed exactly when there is room for the block and the slack, 32-bit arithmetic included |
| `RingQueue.ShmCircularBufQueue.TailAlignWait` | include/libant/interprocess/containers/shm_circular_buf_queue.h:206-222 | succeeds exactly when Head is beyond the start and not beyond Tail |
| `RingQueue.ShmCircularBufQueue.AlignHead` | include/libant/interprocess/containers/shm_circular_buf_queue.h:224-235 | skips a pad without changing the queued payloads, and leaves Head at a block or the ring empty |
| `RingQueue.ShmCircularBufQueue.AlignTail` | src/interprocess/containers/shm_circular_buf_queue.cpp:176-194 | never changes the queued payloads; says when it succeeds and where Tail then is |
| `RingQueue.ShmCircularBufQueue.Pop` | src/interprocess/containers/shm_circular_buf_queue.cpp:141-158 | removes and hands out the oldest payload; returns 0 exactly when nothing is queued |
| `RingQueue.ShmCircularBufQueue.Push` | src/interprocess/containers/shm_circular_buf_queue.cpp:160-174 | appends the payload or leaves the queue unchanged, and exactly when which |
| `RingQueue.RoomIff` | include/libant/interprocess/containers/shm_circular_buf_queue.h:191-195 | pushWait's test holds exactly when Head is not ahead or no byte of the block comes near what may be lent |
| `RingQueue.PopThenPush` | include/libant/interprocess/containers/shm_circular_buf_queue.h:191-195 | what Pop handed out, length word included, is still there after a Push |
| `RingQueue.PushWhenDrained` | src/interprocess/containers/shm_circular_buf_queue.cpp:141-194 | from any drained ring every permitted Push succeeds, at once or on a retry after one Pop, which returns 0; the retry happens exactly when the room test fails |
| `Bigits.MulSeqVal` | include/libant/logger/fmt/format-inl.h:406-432 | the carry chain of multiply denotes value * factor + carry for any number of bigits |
| `Bigits.SubSeqVal` | include/libant/logger/fmt/format-inl.h:382-386 | the borrow chain denotes the difference plus the borrow out times its weight |
| `Bigits.SubAlignedVal` | include/libant/logger/fmt/format-inl.h:394-404 | exactly how far subtract_aligned is from subtraction: right unless the borrow meets a zero bigit, then too large by (2^32 - 1) of that bigit |
| `BigintCompare.CompareOrder` | include/libant/logger/fmt/format-inl.h:483-498 | compare under different exponents never contradicts the order of the values and breaks ties by stored length |
| `BigintCompare.CompareMirrored` | include/libant/logger/fmt/format-inl.h:483-498 | exchanging the operands reverses the verdict, and a tie is between equal values stored in equally many bigits |
| `BigintCompare.CompareFaithful` | include/libant/logger/fmt/format-inl.h:483-498 | compare < 0 is value < value when the left exponent is no larger or the right lowest bigit is nonzero |
| `BigintCompare.CompareFaithfulIff` | include/libant/logger/fmt/format-inl.h:495-497 | right for all left operands if and only if the right operand's lowest bigit is nonzero |
| `BigintCompare.CompareBigits` | include/libant/logger/fmt/format-inl.h:483-498 | the loop from the top bigits down computes that comparison |
| `BigintCompare.AddCompare` | include/libant/logger/fmt/format-inl.h:499-523 | returns the exact sign of lhs1 + lhs2 - rhs, early exits included |
| `BigintSquare.HornerVal` | include/libant/logger/fmt/format-inl.h:543-571 | the columns of the convolution, weighted, sum to the product of the two numbers |
| `BigintSquare.Accumulator.Add` | include/libant/logger/fmt/format-inl.h:353-356 | adds into 128 bits with the carry detected by wrap-around |
| `BigintSquare.Accumulator.ShiftRight32` | include/libant/logger/fmt/format-inl.h:357-362 | divides the 128-bit sum by 2^32 |
| `BigintSquare.Accumulator.Low` | include/libant/logger/fmt/format-inl.h:351-351 | the low 32 bits of the 128-bit sum |
| `BigintSquare.Accumulator.AddLowColumn` | include/libant/logger/fmt/format-inl.h:550-558 | adds exactly the k-th convolution coefficient, lower half, with no overflow of 128 bits |
| `BigintSquare.Accumulator.AddHighColumn` | include/libant/logger/fmt/format-inl.h:561-568 | the same for the upper half |
| `Bigints.Bigint.Assign` | include/libant/logger/fmt/format-inl.h:450-459 | the value becomes n, in at most two trimmed bigits |
| `Bigints.Bigint.RemoveLeadingZeros` | include/libant/logger/fmt/format-inl.h:388-393 | drops exactly the zero bigits above the top nonzero one, keeping one |
| `Bigints.Bigint.SubtractBigits` | include/libant/logger/fmt/format-inl.h:382-386 | one bigit and the borrow, taken from the sign bit of the 64-bit difference |
| `Bigints.Bigint.SubtractAligned` | include/libant/logger/fmt/format-inl.h:394-404 | the loops compute the step whose value SubtractStepVal states, and terminate |
| `Bigints.SubtractStepVal` | include/libant/logger/fmt/format-inl.h:394-404 | one subtraction as values, and the excess when the borrow loop is stuck |
| `Bigints.NotStuck` | include/libant/logger/fmt/format-inl.h:402-402 | with a minuend at most one bigit longer the borrow always finds a nonzero bigit |
| `Bigints.LongStaysLong` | include/libant/logger/fmt/format-inl.h:594-598 | with a minuend two or more bigits longer a turn leaves it as long, and still not smaller |
| `Bigints.DivmodDiverges` | include/libant/logger/fmt/format-inl.h:588-599 | then divmod_assign has another turn after any number of turns |
| `Bigints.Bigint.Multiply32` | include/libant/logger/fmt/format-inl.h:406-415 | the carry chain of a 32-bit factor; every product plus carry fits 64 bits |
| `Bigints.Bigint.Multiply64` | include/libant/logger/fmt/format-inl.h:417-432 | the carry chain of a 64-bit factor in halves; every intermediate sum fits 64 bits |
| `Bigints.Bigint.TimesAssign32` | include/libant/logger/fmt/format-inl.h:477-481 | the value is multiplied by the factor |
| `Bigints.Bigint.TimesAssign64` | include/libant/logger/fmt/format-inl.h:477-481 | the value is multiplied by a 64-bit factor |
| `Bigints.Bigint.ShiftAssign` | include/libant/logger/fmt/format-inl.h:462-475 | the value is multiplied by 2^shift |
| `Bigints.Bigint.Square` | include/libant/logger/fmt/format-inl.h:543-571 | the value is squared, for any number of bigits |
| `Bigints.Bigint.Align` | include/libant/logger/fmt/format-inl.h:573-585 | the exponent comes down to the other's, the value stays |
| `Bigints.Bigint.AssignPow10` | include/libant/logger/fmt/format-inl.h:524-541 | the value becomes 10^exp |
| `Bigints.FindTopBit` | include/libant/logger/fmt/format-inl.h:527-531 | the largest power of two not above the exponent |
| `Bigints.Bigint.DivmodAssign` | include/libant/logger/fmt/format-inl.h:586-600 | exact quotient, and the remainder left in place |
| `Rounding.RoundedUnique` | include/libant/logger/fmt/format-inl.h:2315-2334 | rounding to nearest with ties to even determines the integer |
| `FallbackFormat.LeadingDigits` | include/libant/logger/fmt/format-inl.h:2309-2314 | the digits before the last are exact quotient digits and the numerator keeps the exact rest |
| `FallbackFormat.LastDigit` | include/libant/logger/fmt/format-inl.h:2315-2317 | rounds up exactly past half, or at half when the digit is odd |
| `FallbackFormat.RoundUp` | include/libant/logger/fmt/format-inl.h:2318-2334 | adds one to the number the buffer spells; the exponent goes up exactly when that makes the next power of ten, and the buffer is then a one and zeros |
| `FallbackFormat.NoDigits` | include/libant/logger/fmt/format-inl.h:2303-2308 | the value rounded to a multiple of ten, ties to even |
| `FallbackFormat.GenerateDigits` | include/libant/logger/fmt/format-inl.h:2301-2334 | for every digit count, buffer and exponent denote numerator / denominator rounded to nearest, ties to even; the exponent is one higher exactly after a carry out of nines |
| `FallbackFormat.OutputUnique` | include/libant/logger/fmt/format-inl.h:2301-2334 | that determines buffer and exponent |
| `FallbackSetup.NoTieInteger` | include/libant/logger/fmt/format-inl.h:2237-2248 | with value.e above the decimal exponent no digit step compares equal numbers |
| `FallbackSetup.NoTieFraction` | include/libant/logger/fmt/format-inl.h:2249-2259 | with a negative decimal exponent none does either |
| `FallbackSetup.SetUpInteger` | include/libant/logger/fmt/format-inl.h:2237-2248 | value = numerator / denominator * 10^exp10, for value.e >= 0 |
| `FallbackSetup.SetUpTiny` | include/libant/logger/fmt/format-inl.h:2249-2259 | the same for a negative decimal exponent |
| `FallbackSetup.SetUpFraction` | include/libant/logger/fmt/format-inl.h:2260-2269 | the same otherwise |
| `FallbackSetup.FormatFixed` | include/libant/logger/fmt/format-inl.h:2229-2334 | for every significand, exponent and num_digits >= 0 the digits and exponent denote f * 2^e rounded at that digit, ties to even |
| `ThreadPool.WorkersKept` | include/libant/thread/thread_pool.h:246-295 | every action keeps the worker set, the worker limit and freeWorkerNum_ right |
| `ThreadPool.TasksKept` | include/libant/thread/thread_pool.h:79-121 | every action keeps each accepted task in exactly one place |
| `ThreadPoolRuns.ConfigKept` | include/libant/thread/thread_pool.h:161-198 | every action keeps every worker up to date with the last confirmed configuration or flagged to reload it |
| `ThreadPoolRuns.DrainKept` | include/libant/thread/thread_pool.h:253-283 | a kept worker leaves only when the pool is stopped and its queue empty |
| `ThreadPoolRuns.OwnedKept` | src/thread/thread_pool_ex.cpp:94-100 | every action keeps each executor owned by the queue, by one worker, or freed once |
| `ThreadPoolRuns.RunKeeps` | include/libant/thread/thread_pool.h:55-68 | all of these hold after every run |
| `ThreadPoolResults.TasksConserved` | include/libant/thread/thread_pool.h:79-121 | accepted = queued + executing + output queue + delivered on every run; the queue is the accepted tasks not yet fetched, in order; no task is with two workers or twice among the results |
| `ThreadPoolResults.FetchInOrder` | include/libant/thread/thread_pool.h:282-284 | whatever the step, a worker that comes to hold a task took the oldest queued one, once |
| `ThreadPoolResults.StopDrains` | include/libant/thread/thread_pool.h:135-155 | when Stop has joined its workers and one is kept, the queue is empty and every accepted task has exactly one result |
| `ThreadPoolResults.Stranded` | include/libant/thread/thread_pool.h:263-277 | a run of every pool without kept workers that ends joined with a task still queued |
| `ThreadPoolResults.DrainsIffOneKept` | include/libant/thread/thread_pool.h:135-155 | Stop drains on every run if and only if minThreadNum >= 1 |
| `ThreadPoolResults.NoUseAfterFree` | src/thread/thread_pool_ex.cpp:94-100 | no queued, running or about-to-be-freed executor has been freed, and none is freed twice |
| `ThreadPoolResults.AllFreed` | include/libant/thread/thread_pool_ex.h:105-123 | after the join every executor ever made, refused ones included, was freed exactly once |
| `ThreadPoolResults.ResetTakesEffect` | include/libant/thread/thread_pool.h:161-172 | a task fetched after ResetJobConfig returned on a running pool is processed under that or a later configuration, whatever the run before and after |
| `ThreadPoolResults.ReloadIffFlagged` | include/libant/thread/thread_pool.h:286-300 | on every run a worker changes its configuration only when it starts or reloads, then to the newest; it reloads exactly when it fetched a task with its flag up, which takes the flag down; only ResetJobConfig puts it up |
| `ThreadPoolResults.CountersRight` | include/libant/thread/thread_pool.h:127-133 | workers never exceed the maximum; until Stop freeWorkerNum_ is the number of workers in a wait; until the join the pending count does not underflow and bounds queued plus executing tasks |
| `ThreadPoolObject.Pool.constructor` | include/libant/thread/thread_pool.h:55-68 | the loop creating the kept workers reaches the initial state, which is valid |
| `ThreadPoolObject.Pool.Submit` | include/libant/thread/thread_pool_ex.h:105-123 | after Run on a valid running pool the task is the last one queued and every task is still in one place; a worker, a temporary one, is added exactly when no more workers waited than tasks were queued and the limit allows; a stopped pool has not changed |
| `ThreadPoolObject.Pool.TakeOutput` | include/libant/thread/thread_pool.h:115-120 | returns the oldest result, if any: the only result of its task, computed under a configuration as new as promised when the task was fetched |
| `ThreadPoolObject.Pool.GetPendingTaskCount` | include/libant/thread/thread_pool.h:127-133 | on every valid pool the size_t subtraction does not wrap; until the join the result is at least the tasks queued plus executing, afterwards exactly those queued |
| `ThreadPoolObject.Pool.ResetJobConfig` | include/libant/thread/thread_pool.h:161-172 | when it returns on a running pool every worker will process its next task under that configuration or a later one |
| `ThreadPoolObject.Pool.FlagWorkers` | include/libant/thread/thread_pool.h:165-171 | the loop of ResetJobConfig flags every listed worker, changes nothing else, and is a run of flag steps |
| `ThreadPoolObject.Pool.Enter` | include/libant/thread/thread_pool.h:251-284 | a worker that gets the lock takes the oldest accepted task not yet taken, or waits because none is queued, or leaves a stopped pool that has none; freeWorkerNum_ counts the waiting ones |
| `ThreadPoolObject.Pool.Resume` | src/thread/thread_pool_ex.cpp:71-92 | for every waiting worker of a valid pool: freeWorkerNum_ does not wrap and counts the waiting ones again; a kept or notified worker takes the oldest task, waits or leaves as above; a temporary one that timed out takes nothing and is off the list of a running pool |
| `ThreadPoolObject.Pool.Deliver` | include/libant/thread/thread_pool.h:290-293 | the result is the first and only one of its task, under a configuration as new as promised, and every task is still in one place |
| `ThreadPoolObject.Pool.FinishStop` | src/thread/thread_pool_ex.cpp:41-45 | when Stop has joined the workers of a valid pool that keeps one, every accepted task has exactly one result, and every executor has been freed exactly once |
| `FormatParser.ParseNonnegativeInt` | include/libant/logger/fmt/core.h:1848-1866 | reads the whole run of digits as its decimal value, or fails exactly when that exceeds INT_MAX, without wrapping 32 bits |
| `FormatParser.DoParseArgId` | include/libant/logger/fmt/core.h:1916-1942 | decides an id to be an index, a name or an error as the maximal runs of digits or name characters say |
| `FormatParser.ParseArgId` | include/libant/logger/fmt/core.h:1944-1952 | the same with automatic ids |
| `FormatParser.ParseReplacementField` | include/libant/logger/fmt/core.h:2124-2148 | the handler calls, the position or the error of a field or escaped brace, for every handler |
| `FormatParser.AddTextTwice` | include/libant/logger/fmt/core.h:2164-2173 | giving text in two pieces is giving it joined |
| `FormatParser.ShortScan` | include/libant/logger/fmt/core.h:2158-2175 | for every string and handler the single-pass loop makes the reference's calls, up to joining adjacent text, with the same error at the same point |
| `FormatParser.Write` | include/libant/logger/fmt/core.h:2176-2191 | the text pass over a stretch without opening braces does what the reference does there |
| `FormatParser.LongScan` | include/libant/logger/fmt/core.h:2192-2200 | for every string and handler the two-pass loop makes the reference's calls too, hence the short scan's |
| `FormatParser.ParseFormatString` | include/libant/logger/fmt/core.h:2151-2201 | the choice by length cannot be told from the merged calls |
| `FormatRender.SpelledDecimal` | include/libant/logger/fmt/core.h:1861-1861 | the digits of n are read back as n |
| `FormatRender.ArgReadBack` | include/libant/logger/fmt/core.h:1916-1952 | every index up to INT_MAX, every name and the empty id is read back from its spelling |
| `FormatRender.FlushFrom` | include/libant/logger/fmt/core.h:2160-2173 | where parsing succeeds, handing pending text over early makes no difference |
| `FormatRender.RenderParse` | include/libant/logger/fmt/core.h:2151-2201 | rendering any list of literal texts and fields and parsing it calls the handler with exactly these texts, ids and positions |
| `FormatFlaws.DigitsSpelled` | include/libant/logger/fmt/core.h:1920-1925 | digits without a leading zero are how their number is spelled |
| `FormatFlaws.Decompose` | include/libant/logger/fmt/core.h:2151-2201 | every string is rendered from pieces, or from pieces and one flaw |
| `FormatFlaws.FlawedParse` | include/libant/logger/fmt/core.h:2151-2201 | on pieces and a flaw parsing makes exactly their calls and ends with the flaw's error |
| `FormatFlaws.ParsesIff` | include/libant/logger/fmt/core.h:2151-2201 | parsing succeeds if and only if the string is rendered from pieces |
| `FormatFlaws.FailsIff` | include/libant/logger/fmt/core.h:2151-2201 | parsing ends with an error, after certain calls, if and only if the string has the flaw of that error behind pieces with these calls: lone closing or opening brace, bad start, bad or huge index, name or specifiers not closed |
| `FormatFlaws.ThrownIff` | include/libant/logger/fmt/core.h:2124-2148 | for every handler, parsing ends with the handler's exception if and only if the last call is one it threw at, all others having been answered |
| `Xxtea.StepUndone` | src/crypto/xxtea.cpp:36-42 | a reverse word update undoes a forward one |
| `Xxtea.PassUndone` | src/crypto/xxtea.cpp:17-23 | a reverse pass undoes a forward pass |
| `Xxtea.WordsUndone` | src/crypto/xxtea.cpp:8-46 | decrypting undoes encrypting for every number of words, whatever the words are mixed with |
| `Xxtea.SumNonzero` | src/crypto/xxtea.cpp:32-43 | decrypt's sum is not zero before all rounds are undone, as DELTA is odd |
| `Xxtea.Encrypt` | src/crypto/xxtea.cpp:8-26 | the in-place loops compute the forward rounds |
| `Xxtea.Decrypt` | src/crypto/xxtea.cpp:28-46 | the in-place loops compute the reverse rounds, stopping after exactly q of them |
| `Xxtea.FastEncrypt` | include/libant/crypto/xxtea.h:96-112 | pads, stores the length in the last word and encrypts |
| `Xxtea.FastDecrypt` | include/libant/crypto/xxtea.h:152-165 | decrypts, checks the length word with its 32-bit wrap, and strips |
| `Xxtea.FrameLayout` | include/libant/crypto/xxtea.h:96-112 | what is encrypted is the text, zeros up to whole words, and the length with its lowest byte first |
| `Xxtea.AcceptedIff` | include/libant/crypto/xxtea.h:152-165 | a string is accepted if and only if its last decrypted word is the length of a text whose frame is that long |
| `Xxtea.RoundTrip` | include/libant/crypto/xxtea.h:96-165 | decrypting the encryption gives the text back for every key and text, except that the empty text is rejected |
| `Xxtea.RoundsShare` | src/crypto/xxtea.cpp:12-12 | six rounds and as many as 52 shared among the words |
| `XxteaKnownAnswer.KnownAnswer` | src/crypto/xxtea.cpp:5-26 | two zero words under a published key give the published ciphertext, which fixes MX, the key schedule, DELTA and the rounds |
| `InternetChecksum.AddChecksum` | src/checksum/checksum.cpp:7-31 | adds the 32-bit words and the 2- and 1-byte tails, modulo 2^64 |
| `InternetChecksum.FinishChecksum16` | include/libant/checksum/checksum.h:60-70 | both folds end and give the representative modulo 65535 that is 0 only for 0 |
| `InternetChecksum.FinishChecksum32` | include/libant/checksum/checksum.h:45-52 | the fold ends, keeps the residue modulo 2^32 - 1, and is 0 only for 0 |
| `InternetChecksum.Sum32Canon` | src/checksum/checksum.cpp:16-30 | summing 32-bit words folds to the same 16 bits as summing 16-bit words |
| `InternetChecksum.OnesSumCanon` | include/libant/checksum/checksum.h:66-68 | the end-around-carry sum of RFC 1071 is the representative of the plain sum |
| `InternetChecksum.LittleIsSwapped` | src/checksum/checksum.cpp:17-29 | the little-endian computation gives the byte-swapped big-endian sum (section 2 of RFC 1071) |
| `InternetChecksum.Checksum16` | include/libant/checksum/checksum.h:93-96 | the byte-swapped RFC 1071 sum of the data |
| `PacketChecksum.SealVerifies` | src/net/checksum4.cpp:69-70 | a segment with its checksum set sums with its pseudo-header to FFFF, and the stored bytes are those of the big-endian computation |
| `PacketChecksum.SetTcp4` | src/net/checksum4.cpp:54-72 | changes the segment's checksum field only, to that value, or nothing if the segment is too short |
| `PacketChecksum.Tcp4Verifies` | src/net/checksum4.cpp:54-72 | such a segment verifies against the pseudo-header of section 3.1 of RFC 793 |
| `PacketChecksum.AddAddress` | src/net/checksum6.cpp:14-23 | adds the four words of an address |
| `PacketChecksum.SetOverIp6` | src/net/checksum6.cpp:8-54 | TCP and UDP over IPv6, header and segment anywhere in memory: changes the checksum field only, or nothing if the segment is too short |
| `PacketChecksum.Ip6Verifies` | src/net/checksum6.cpp:8-54 | such a segment verifies against the pseudo-header of section 8.1 of RFC 8200 |
| `PacketChecksum.UdpZeroIff` | src/net/checksum6.cpp:51-52 | the stored UDP checksum is zero exactly when the cleared segment already sums to FFFF |
| `PacketChecksum.UdpZeroExample` | src/net/checksum6.cpp:51-52 | a packet for which it is |
| `PacketChecksum.HeaderVerifies` | src/net/checksum4.cpp:22-23 | after its checksum is set, a header with ip_hl >= 5 sums to FFFF |
| `PacketChecksum.IcmpOverWholePacket` | src/net/checksum4.cpp:10-36 | an ICMP packet leaves with its header checksum verifying, and with the ICMP checksum of the message alone if and only if the message is not all zero; then the field is 0 where it should be FFFF |
| `PacketChecksum.IcmpZeroExample` | src/net/checksum4.cpp:29-36 | a packet for which it is |
| `PacketChecksum.SetIp4` | src/net/checksum4.cpp:10-52 | the packet and the result for every length, header and protocol |
| `PacketChecksum.EveryPacket` | src/net/checksum4.cpp:10-52 | an inconsistent packet is refused as it is; any other gets its header checksum, verifying if ip_hl >= 5, and is reported done exactly when it holds a whole ICMP, UDP or TCP header, whose checksum field, zero for UDP, is the only other thing that changes |
| `PacketChecksum.TcpPacketVerifies` | src/net/checksum4.cpp:10-52 | a TCP packet leaves with both its checksums verifying |
| `HttpClient.CompletedKeeps` | src/net/http/base_http_client.cpp:38-115 | every completion, with every error code, keeps the queue, the operations under way and the retry budget consistent |
| `HttpClient.CompletedServes` | src/net/http/base_http_client.cpp:205-240 | every handler answers the front request, as cancelled if closed, or starts exactly one operation for it with less work left |
| `HttpClient.CompletionLaw` | src/net/http/base_http_client.cpp:38-115 | on every run: an error is retried while retries are left and then reported as it is, a cancellation is reported at once, a success leads to the next operation or the answer, a bad status is retried; on a closed client the answer is a cancellation |
| `HttpClient.CanceledOnlyIf` | src/net/http/base_http_client.cpp:216-221 | a completion is answered as cancelled only on a closed client or for a cancellation |
| `HttpClient.RunKeeps` | include/libant/net/http/base_http_client.h:118-168 | so does every run, with Get, Post and Close called at any point, callbacks included |
| `HttpClient.OneOperation` | src/net/http/base_http_client.cpp:38-115 | of all the operations ever started at most one is not yet completed; it was started for the oldest unanswered request, and no callback is running then |
| `HttpClient.AnsweredOnceInOrder` | include/libant/net/http/base_http_client.h:131-146 | answers come in request order, none twice; all requests are answered by destruction, and whenever an open client is idle |
| `HttpClient.BoundedWork` | src/net/http/base_http_client.cpp:205-240 | each completion, of whatever operation is under way, answers the front request or lowers (max - retried, stage) lexicographically; a request takes at most 5(max + 1) completions and max + 1 sends |
| `HttpClient.FailuresJustified` | src/net/http/base_http_client.cpp:78-115 | a failure other than a cancellation, or a bad status, is reported only when all retries are used up |
| `HttpClient.ClosedCancels` | include/libant/net/http/base_http_client.h:65-74 | after Close every further answer is a cancellation, and the earlier ones stay |
| `HttpClientObject.BaseHttpClient.Ask` | include/libant/net/http/base_http_client.h:118-129 | on a valid client Get and Post queue the request last and answer nothing; it is started if it is alone, and otherwise nothing is |
| `HttpClientObject.BaseHttpClient.AfterCallback` | include/libant/net/http/base_http_client.h:140-145 | after the callback the answered request is gone and what the callback asked for is still queued; the next request is under way with a full retry budget, or nothing is if the client is closed |
| `HttpClientObject.BaseHttpClient.OnResolve` | src/net/http/base_http_client.cpp:205-222 | the front request is answered or served by one operation with less work left; an error is retried or reported; a resolved name leads to a connection attempt |
| `HttpClientObject.BaseHttpClient.OnConnect` | src/net/http/base_http_client.cpp:224-240 | the same; an error is retried or reported; a connection leads to the plain client sending and the TLS client shaking hands |
| `HttpClientObject.BaseHttpClient.OnHandshaken` | src/net/http/base_http_client.cpp:38-56 | the same; an error is retried or reported; a handshake leads to an open connection and the request being sent |
| `HttpClientObject.BaseHttpClient.OnRequestSent` | src/net/http/base_http_client.cpp:58-76 | the same; an error closes the connection and is retried or reported; a sent request leads to its response being read |
| `HttpClientObject.BaseHttpClient.OnResponseRead` | src/net/http/base_http_client.cpp:78-115 | the same; a response is the answer exactly when it is good or no retry is left, and the connection stays open exactly when the response keeps it |
| `HttpClientObject.BaseHttpClient.Destruct` | include/libant/net/http/base_http_client.h:41-50 | the destructor answers every pending request, in order, as cancelled, so that every request ever made has its one answer |
| `Ip6.GetSourcePort` | src/net/ip6.cpp:9-60 | terminates inside the packet on arbitrary bytes with the port of the header LocateTcpHeader or LocateUdpHeader would find, else 0 |
| `Ip6.GetDestinationPort` | src/net/ip6.cpp:62-113 | the same for the destination port |
| `Ip6.LocateTcpHeader` | src/net/tcp6.cpp:7-55 | terminates inside the packet with the TCP header's position and the exact remaining length |
| `Ip6.LocateUdpHeader` | src/net/udp6.cpp:7-55 | the same for UDP |
| `Ip6.WalkChain` | src/net/tcp6.cpp:25-50 | the walk over a serialised chain ends right behind it with the announced protocol |
| `Ip6.WalkToEnd` | src/net/tcp6.cpp:25-50 | the walk over a chain with nothing behind it finds nothing |
| `Ip6.ChainOfWalk` | src/net/tcp6.cpp:25-50 | whatever the walk accepted was a serialised chain of extension headers |
| `Ip6.UpperLayerIff` | src/net/tcp6.cpp:17-54 | a transport header is found at a position if and only if the bytes before it are a chain announcing it and something follows |
| `Ip6.BuiltLocated` | src/net/udp6.cpp:7-55 | on every packet built from headers of the lengths RFC 8200 and RFC 4302 give, the walkers find exactly the transport header, its data and its ports |
| `Ip6.PortsAgree` | src/net/ip6.cpp:9-113 | at most one of the two headers is found and the ports are read from it |
| `BinaryCodec.SwapReverses` | include/libant/encoding/binary/endian.h:59-141 | the byte-swap expressions of 1, 2, 4 and 8 bytes reverse the bytes |
| `BinaryCodec.WireBytes` | include/libant/encoding/binary/binary_writer.h:58-78 | byte k on the wire is the k-th from the bottom in little endian, from the top in big endian |
| `BinaryCodec.WireOnEveryHost` | include/libant/encoding/binary/endian.h:224-486 | what a host writes does not depend on its byte order |
| `BinaryCodec.ReadOnEveryHost` | include/libant/encoding/binary/endian.h:148-222 | a host of either byte order reads the number back |
| `BinaryCodec.ValueOfBits` | include/libant/encoding/binary/binary_reader.h:70-94 | signed and unsigned values survive the cast to bits and back |
| `BinaryCodec.WriteThenRead` | include/libant/encoding/binary/binary_reader.h:70-130 | any list of integers and strings behind fitting length prefixes is read back exactly and up to the end |
| `BinaryCodec.TextReadBackIff` | include/libant/encoding/binary/binary_writer.h:107-112 | a string is read back if and only if its length fits the prefix type |
| `BinaryStreams.BinaryWriter.WriteInteger` | include/libant/encoding/binary/binary_writer.h:58-78 | appends the wire bytes of the integer |
| `BinaryStreams.BinaryWriter.WriteSizedString` | include/libant/encoding/binary/binary_writer.h:107-112 | appends the length, cut to its type, and the string |
| `BinaryStreams.BinaryReader.ReadInteger` | include/libant/encoding/binary/binary_reader.h:70-94 | reads the integer and advances, or fails and does not |
| `BinaryStreams.BinaryReader.ReadString` | include/libant/encoding/binary/binary_reader.h:101-106 | reads the rest of the stream |
| `BinaryStreams.BinaryReader.ReadSizedString` | include/libant/encoding/binary/binary_reader.h:116-130 | reads the string if its length is there, not negative and not beyond the end; otherwise fails with the length, if any, consumed |
| `BinaryStreams.WriteAndRead` | include/libant/encoding/binary/binary_reader.h:70-130 | any list of integers and strings written by BinaryWriter on one host is read back by BinaryReader on any host |
| `BinaryStreams.BinaryBuffer.constructor` | include/libant/encoding/binary/binary_buffer.h:49-59 | an empty buffer with the given room on both sides |
| `BinaryStreams.BinaryBuffer.Clear` | include/libant/encoding/binary/binary_buffer.h:92-100 | empties the buffer and gives back the prepend room, the allocation staying headCap_ + size + tailCap_ |
| `BinaryStreams.BinaryBuffer.Grow` | include/libant/encoding/binary/binary_buffer.h:271-287 | makes room, keeping the contents and the prepend room |
| `BinaryStreams.GrownSizeIs` | include/libant/encoding/binary/binary_buffer.h:279-279 | the new allocation is the next multiple of 1024 above what is needed |
| `BinaryStreams.BinaryBuffer.AppendString` | include/libant/encoding/binary/binary_buffer.h:221-241 | the contents get the string at the end |
| `BinaryStreams.BinaryBuffer.PrependString` | include/libant/encoding/binary/binary_buffer.h:137-157 | the contents get the string in front |
| `BinaryStreams.BinaryBuffer.AppendInteger` | include/libant/encoding/binary/binary_buffer.h:192-214 | the contents get the wire bytes at the end |
| `BinaryStreams.BinaryBuffer.PrependInteger` | include/libant/encoding/binary/binary_buffer.h:108-130 | the contents get the wire bytes in front |
| `BinaryStreams.BinaryBuffer.AppendSizedString` | include/libant/encoding/binary/binary_buffer.h:249-268 | the contents get length and string at the end |
| `BinaryStreams.BinaryBuffer.PrependSizedString` | include/libant/encoding/binary/binary_buffer.h:165-184 | the contents get length and string in front |

## Left out

- Bigints.Bigint.DivmodAssign: its precondition asks for a numerator at most one bigit longer than the divisor, because with a longer one the code does not return (`DivmodDiverges`), and, if the two values are equal, for an exponent no larger than the divisor's, because `compare` then reports "less"; the `int` quotient is an unbounded number (`fallback_format` needs at most 9).
- BigintCompare.CompareFaithful: needs an operand whose bigits are trimmed, or a numerator that has become zero, which is what `bigint` operations leave.
- Bigints.Bigint.Square: for fewer than 2^30 bigits, so that a column sum fits the 128-bit accumulator; `AssignPow10` has the matching bound on its exponent.
- FallbackSetup.FormatFixed: takes the significand, the exponent and the decimal exponent estimate as inputs and asks that the estimate not be too small and that 4f fit 64 bits, as the shift of the significand needs; the boundaries `lower` and `upper` serve only the shortest-digits branch.
- The shortest-digits branch of `fallback_format`, Grisu, Dragonbox and their tables.
- Ring: shared-memory mapping calls, attaching and destroying; weak memory, since accesses are taken to be sequentially consistent; the sleeps between the ten polls.
- ThreadPoolResults.ResetTakesEffect: "returned" is the end of the flag loop under the lock; a reset of a stopped pool promises nothing.
- ThreadPoolObject.Pool.GetPendingTaskCount: the sum of the two container sizes is taken to fit size_t.
- ThreadPool: the waits of `GetJobOutput` (it takes a result whenever it holds the lock), that `Stop` returns at all, and concurrent use while `Stop` walks the worker set after releasing the lock; several `Stop` calls are one.
- FormatParser.ParseFormatString: `on_error` ends parsing, as with every handler that throws; handlers answer from the calls they have had with adjacent text joined.
- FormatRender.RenderParse, FormatFlaws.ParsesIff and FormatFlaws.FailsIff: handlers that accept every argument and end a specifier at the first closing brace; nested fields inside specifiers are not rendered.
- The parsing of format specifiers, argument storage and all output formatting of {fmt}.
- Xxtea.FastDecrypt: inputs of fewer than four bytes, for which the code reads in front of its buffer; Xxtea.RoundTrip leaves 8 bytes of the 32-bit size for the frame.
- PacketChecksum.IcmpOverWholePacket: headers with ip_hl < 5 are outside the statement; alignment copies of `AddChecksum` are not modelled.
- HttpClient: streams, TLS, timeouts, header building, and the contents of responses; a request without a callback counts as answered when it is retired; callbacks of the destructor do not call the client again, which would invalidate its iteration.
- BinaryCodec.TextReadBackIff: positions are unbounded, so the wrap of a 64-bit length prefix on malformed input is not modelled.
- Kafka, MD5, ChaCha20, hex, hashes, timers, logger, file, event and string utilities, IPv4 port lookup: thin wrappers or only easier members.
