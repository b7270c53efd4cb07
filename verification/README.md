# A verified model of libevent_cpp

libevent_cpp wraps a vendored libevent 2.1.8 in C++. This project models the parts of both that carry state from call to
call, and proves what callers rely on: for every input, every state that can be reached, and every run of calls.

What the library mutates is mutated here. Chains, buffers, events, requests, bufferevents and connections are classes;
lists are real linked structures of `next` pointers or the sequences and maps that stand for queues; loops are loops with
invariants. Each method is proved against a function or a predicate on plain values (`EvBuffer.Contents()`,
`Parse`, `Refilled`, `Deframe`, `DecodeRecord`, ...), and what the library promises is then proved about these.

* **evbuffer** (`Bytes`, `EvBuffer*.dfy`). A byte queue in a singly linked list of chunks, with a pointer to a pointer to
  the last chunk that has data. The slot `last_with_datap` is `Head` or `NextOf(chain)`; ghost fields hold the list of
  chains, the bytes of each, and the index of the last one with data. Everything refines operations on the flattened
  bytes. Where the code is only right under a condition the condition is exact: `AdvanceExact` and `TransferExact` (moving
  part of a buffer), `CommitExact` and `OneVecCommits` (reserving and committing), each proved in both directions. What
  breaks them is a gap, an empty chain in front of data. `EvBufferGaps` comes to one by three runs of calls from a new
  buffer; otherwise operations keep buffers free of gaps (`Compact`), `evbuffer_prepend_buffer` under the condition that
  `PrependExact` gives. So in every history of two buffers that `EvBufferRuns` allows, with adds, removes, line reads,
  socket reads, reservations and transfers both ways, each call is within its conditions, and the history is one of two
  byte queues.
* **Event queues** (`EventBase`, `EventBaseSpec`, `EventBaseOrder`, `EventBaseRuns`). Flags, counters, active and later queues, heap and
  common timeout lists. `Core` is what `event_base_assert_ok_nolock_` (event.c:3884-3940) checks, made exact; `Scheduled`
  says that no common timeout is lost. Timers fire exactly the events that are due, in order, and leave every other event
  as it was. `EventBaseSpec` is a machine on plain values, `EventBaseRuns` proves that every history of a base is one of
  the machine, and there nothing fires unasked, too early or twice (`FiredRightly`), and an iteration of the loop fires
  what is due and leaves waiting what is not (`NotLost`). `EventBaseOrder` says who runs and when: exactly what is active or
  fires (`RunsExactly`), the highest priority first (`HighestFirst`), and within a priority in the order of arrival
  (`FirstComeFirstServed`). Without memory that can fail: event_add_nolock_ reserves a place
  in the heap only for an event that is not pending. `Strands` is the exact condition, and `LostInList` and `LostForHeap`
  are runs that come to it.
* **DNS** (`DnsNames`, `DnsRequests`, `DnsResolver`, `DnsResolverSpec`, `DnsResolverRuns`). The name codec of section 4.1.4
  of RFC 1035, with pointer cycles and shared label tables; the in-flight requests in a hash table of circular lists, with
  their servers and the waiting queue; and every history of a resolver, again as one of a plain machine, in which no request
  is lost or doubled, those that wait go into flight in their order, and each is sent then or waits for it (`AlwaysTended`). A new request can overtake them: `Overtakes` says
  exactly when, and `Overtaken` is a run in which one does.
* **Rate limiting** (`TokenBucket`, `RateLimit`, `RateLimitSpec`, `RateLimitRuns`). Saturating refill in unsigned arithmetic
  under a wrapping tick counter, the machine of suspension reasons, refill timers and groups, and every history of
  bufferevents and groups as one of a plain machine that says what each call moves. So there are bounds on the throughput
  of a bufferevent (`LineThroughput`) and of all members of a group together (`GroupThroughput`); in the other direction a
  group shares out all that it has (`SharedFully`), and nothing waits without a timer to resume it (`GuardedAlways`).
* **Users of the buffer.** The bufferevent pair as a FIFO channel with watermarks, in which no byte waits that may go
  (`Pair`), tagged records (`Tagging`, `TaggingBuffer`), the wrapper's length-prefixed messages from one connection to
  another (`Framing`, `FramingRuns`) and its deferred deletion of connections (`ConMgr`).

Conventions. `EvBuffer.Valid()` is the representation invariant that evbuffer-internal.h describes; most methods require
and ensure it. Memory: a buffer (or label table) whose constant `ample` is true is granted every allocation of an
admissible size, otherwise any allocation may fail; so contracts say both that failures leave things alone and that
without them calls succeed. The array of the heap of timeouts has a length, and a parameter says whether it can grow.
Clocks, sockets, the kernel's answers, random numbers and what user code does are parameters or arbitrary choices. Where
a comment of the source and its code differ the code is followed: a failed `evbuffer_prepend` may leave a part of its
data in the buffer, although the result only says that it failed; `evbuffer_remove_buffer` ignores whether its copy
succeeded; a decoder of event_tagging.c reports any missing memory as malformed input; and the read callback of
connector.cc follows a null pointer when four bytes cannot be made contiguous (`ReadCallback` returns `crashed` then,
and never with memory).

## Model

| member | source | states |
|---|---|---|
| EvBufferCore.EvBuffer.constructor | External/libevent-2.1.8-stable/buffer.c:360-374 | a new buffer is empty, unfrozen and satisfies the representation invariant |
| EvBufferCore.ChainNew | External/libevent-2.1.8-stable/buffer.c:155-192 | null when the size is above the largest chain; with memory, never otherwise; a chain has at least the size asked for and at most the largest one |
| EvBufferCore.FreeTrailingEmptyChains | External/libevent-2.1.8-stable/buffer.c:289-302 | exactly the empty chains behind the last one with data go; the bytes stay, and the result is the slot behind the last chain |
| EvBufferCore.TrimPieces | External/libevent-2.1.8-stable/buffer.c:289-302 | cutting the empty pieces at the end keeps the flattened bytes and leaves data at the end, for every list of pieces |
| EvBufferCore.ChainInsert | External/libevent-2.1.8-stable/buffer.c:307-326 | the new chain replaces the empty ones at the end, the bytes are those before plus those of the chain, and last, last_with_datap and total_len are right again |
| EvBufferCore.SetFrozen | External/libevent-2.1.8-stable/buffer.c:3380-3390 | only the chosen end is frozen or unfrozen; the bytes and the invariant stay |
| EvBufferAdd.ChainAlign | External/libevent-2.1.8-stable/buffer.c:1902-1909 | moving the bytes of a chain to the start of its memory changes no byte of the buffer |
| EvBufferAdd.Add | External/libevent-2.1.8-stable/buffer.c:1722-1817 | appends data exactly when it returns 0; with memory it fails only for a frozen end or an overflow of the length; a failed call leaves every byte; a buffer without gaps stays so |
| EvBufferAdd.Prepend | External/libevent-2.1.8-stable/buffer.c:1819-1899 | on failure a suffix of the data may stay in front (the call is not atomic); on success all of it is in front; with memory it fails only for a frozen start or an overflow |
| EvBufferDrain.Drain | External/libevent-2.1.8-stable/buffer.c:1095-1161 | takes exactly min(len, length) bytes from the front, or nothing from a frozen, non-empty buffer; a buffer without gaps stays so |
| EvBufferDrain.DrainWalk | External/libevent-2.1.8-stable/buffer.c:1125-1148 | the walk stops in the chain where the amount is used up, never behind the last chain with data, and last_with_datap is re-homed if the chain whose next field it was is freed |
| EvBufferDrain.DropPieces | External/libevent-2.1.8-stable/buffer.c:1125-1151 | dropping k chains and n bytes of the next one drops that many bytes of the flattened contents and keeps where the data ends |
| EvBufferDrain.CopyOutFrom | External/libevent-2.1.8-stable/buffer.c:1184-1249 | copies exactly the bytes from the front or from a position on, as many as there are up to datlen, and changes nothing; -1 exactly for a frozen start with something to copy, or a position and a datlen whose sum is above the largest ssize_t |
| EvBufferDrain.Remove | External/libevent-2.1.8-stable/buffer.c:1164-1176 | copies out and drops the first min(datlen, length) bytes, or does neither |
| EvBufferPullup.PullChains | External/libevent-2.1.8-stable/buffer.c:1414-1436 | the loop of a pull-up: the whole chains within size are copied, in order, and the two flags say whether the last chain with data, or the chain whose next field is last_with_datap, was freed |
| EvBufferPullup.PulledPieces | External/libevent-2.1.8-stable/buffer.c:1395-1438 | the pulled-up bytes in front of what is left flatten to the same contents, and the data ends where the code will say, for every list of pieces |
| EvBufferPullup.PullupRelink | External/libevent-2.1.8-stable/buffer.c:1430-1449 | after the surgery last and last_with_datap designate the right chains again, and the contents are unchanged |
| EvBufferPullup.Pullup | External/libevent-2.1.8-stable/buffer.c:1344-1454 | on success the first size bytes lie contiguously in the first chain and their address is returned; the contents never change, and a buffer without gaps stays so; with memory it is null only for size 0 or a size above the length (or above the largest chain) |
| EvBufferMove.TakeOver | External/libevent-2.1.8-stable/buffer.c:869-881 | a buffer takes over all chains of another one, which is then empty; last_with_datap is re-homed |
| EvBufferMove.AppendList | External/libevent-2.1.8-stable/buffer.c:883-900 | the chains of one buffer behind those of another: contents dst ++ src, and last_with_datap designates the last data of the whole |
| EvBufferMove.AddBuffer | External/libevent-2.1.8-stable/buffer.c:960-1004 | all bytes of the source move behind those of the destination, or nothing happens (frozen, empty, or one buffer with itself); the chain sets stay apart; two buffers without gaps stay so |
| EvBufferMove.PrependList | External/libevent-2.1.8-stable/buffer.c:942-958 | the chains of one buffer in front of those of another, with last_with_datap re-homed |
| EvBufferMove.PrependExact | External/libevent-2.1.8-stable/buffer.c:1049-1093 | chains with data in front of others make a gap if and only if empty ones follow their data |
| EvBufferMove.PrependBuffer | External/libevent-2.1.8-stable/buffer.c:1049-1093 | all bytes of the source move in front of those of the destination, or nothing happens; no gap arises unless empty chains follow the data of the source |
| EvBufferTransfer.AdvanceExact | External/libevent-2.1.8-stable/buffer.c:702-716 | advance_last_with_data finds the last piece with data if and only if no empty piece comes before one with data |
| EvBufferTransfer.Advance | External/libevent-2.1.8-stable/buffer.c:702-716 | the loop comes to the place that AdvanceExact is about |
| EvBufferTransfer.TransferExact | External/libevent-2.1.8-stable/buffer.c:1254-1342 | what the shortcuts of evbuffer_remove_buffer make of last_with_datap is the last chain with data in both buffers if and only if the transfer is safe, a condition on the lists before the call |
| EvBufferTransfer.TransferUnsafe | External/libevent-2.1.8-stable/buffer.c:1254-1342 | a source whose first chain is empty and whose second one holds the data, of which some are to stay, is never safe to move from, whatever the destination |
| EvBufferTransfer.CompactAllowed | External/libevent-2.1.8-stable/buffer.c:1254-1342 | a source without gaps can be moved from with every amount |
| EvBufferTransfer.TransferPieces | External/libevent-2.1.8-stable/buffer.c:1287-1331 | what moves and what stays of the flattened bytes when the walk has passed k chains |
| EvBufferTransfer.RemoveBuffer | External/libevent-2.1.8-stable/buffer.c:1254-1342 | exactly the first min(n, length) bytes leave the source; they arrive behind those of the destination, all of them if the copy of the last part succeeds, which it does with memory and without overflow; two buffers without gaps stay so |
| EvBufferExpand.ExpandSinglechain | External/libevent-2.1.8-stable/buffer.c:1927-2035 | the chain returned is the last one with data or the one behind it and has room for datlen bytes behind its own; no byte changes and no gap arises; with memory it is never null for sizes that leave room for the copied bytes |
| EvBufferExpand.SwapChain | External/libevent-2.1.8-stable/buffer.c:2005-2023 | a copy of the last chain with data takes its place in the list; last follows |
| EvBufferExpand.Expand | External/libevent-2.1.8-stable/buffer.c:2149-2158 | a success leaves room for datlen bytes; no byte changes |
| EvBufferExpandFast.MeasureRoom | External/libevent-2.1.8-stable/buffer.c:2060-2090 | the loop measures exactly the room in the first n chains with space, realigning the empty ones, and says whether it is enough; the first chain with room directly follows the bytes then |
| EvBufferExpandFast.NukeBehind | External/libevent-2.1.8-stable/buffer.c:2105-2146 | all empty chains are replaced by one large enough, or, without memory, are gone; no byte is touched |
| EvBufferExpandFast.NukeAll | External/libevent-2.1.8-stable/buffer.c:2105-2146 | the same when there is no data at all |
| EvBufferExpandFast.ExpandFast | External/libevent-2.1.8-stable/buffer.c:2039-2147 | for n >= 2 a success means that at most n chains, from the first one with room on, have room for datlen bytes, each of them some, and that the first one directly follows the bytes; with fewer than n chains none is freed; no byte moves and no gap arises; with memory it succeeds |
| EvBufferSpace.GatherStep | External/libevent-2.1.8-stable/buffer.c:2213-2247 | while the regions gathered so far are not enough there is another chain, and fewer than n regions have been used: the loop never runs off the list |
| EvBufferSpace.SetupVecs | External/libevent-2.1.8-stable/buffer.c:2213-2247 | at most n regions, none of them empty, the free space of consecutive chains from the first one with room on, together at least the request and, in exact mode, exactly the request |
| EvBufferCommit.VecsMatch | External/libevent-2.1.8-stable/buffer.c:755-765 | the first pass accepts exactly vectors that are the free space of consecutive chains and no longer than it |
| EvBufferCommit.CommitVecs | External/libevent-2.1.8-stable/buffer.c:766-775 | the second pass appends exactly the bytes in the vectors, in order, each part in the chain of its vector; last_with_datap designates the last of them that is not empty; no gap arises if no vector is skipped |
| EvBufferCommit.CommitExact | External/libevent-2.1.8-stable/buffer.c:734-745 | committing to the last chain leaves last_with_datap right if and only if at most one chain follows the last one with data |
| EvBufferCommit.Commit | External/libevent-2.1.8-stable/buffer.c:718-786 | accepts exactly what CommitAccepts describes, appends exactly the filled bytes, each part in the chain of its vector, and returns -1 with every field of the buffer and of its chains unchanged; no gap arises if the vectors continue the data and none is skipped |
| EvBufferRead.ReserveSpace | External/libevent-2.1.8-stable/buffer.c:669-700 | one vector: the free space of one chain at the end of the data; several: regions from the first chain with room on that cover the request; with memory it fails only when frozen or without vectors |
| EvBufferRead.ReservationCommits | External/libevent-2.1.8-stable/buffer.c:670-786 | every prefix, filled as far as one likes, of a reservation of two or more vectors is accepted by evbuffer_commit_space |
| EvBufferRead.OneVecCommits | External/libevent-2.1.8-stable/buffer.c:670-786 | a reservation of one vector is accepted if and only if its chain is the last one or the first one with room; one that was just made is safe to commit |
| EvBufferRead.ClipCommits | External/libevent-2.1.8-stable/buffer.c:670-786 | a fresh reservation of two or more vectors, filled with n bytes from the front, is accepted, safe to commit, and continues the data |
| EvBufferRead.Fill | External/libevent-2.1.8-stable/buffer.c:669-786 | reserving, writing and committing appends a prefix of the data, as much as there is room for and at least the size asked for, or nothing; no gap arises |
| EvBufferRead.Readv | External/libevent-2.1.8-stable/buffer.c:2306-2335 | the kernel lays the incoming bytes over the regions in order; the regions share no memory |
| EvBufferRead.CommitRead | External/libevent-2.1.8-stable/buffer.c:2366-2385 | n bytes that lie in the regions become part of the buffer, exactly those and in order |
| EvBufferRead.Read | External/libevent-2.1.8-stable/buffer.c:2270-2399 | appends exactly the first r bytes that came in, or -1 and nothing; r is at most howmuch (unless that is negative), at most what the kernel reports to be readable (if that is from 1 to 4096) and at most 4096, and nothing smaller than the least of these and of what came in is read; no gap arises; with memory it fails only when frozen or when the system call fails |
| EvBufferRead.FillOne | External/libevent-2.1.8-stable/buffer.c:669-786 | reserving one vector, writing and committing appends a prefix of the data, at least the size asked for, or nothing, with memory only when chains follow the data; as a commit behind an empty chain is left out, a buffer without gaps stays so |
| EvBufferRead.FillOneReserved | External/libevent-2.1.8-stable/buffer.c:731-786 | the bytes written to a reservation of one vector are appended exactly if its chain is the last one or the first one with room, in this chain |
| EvBufferSearch.CanonicalUnique | External/libevent-2.1.8-stable/buffer.c:2609-2659 | there is one canonical (chain, offset) pair for every position, so setting and then adding is setting the sum |
| EvBufferSearch.PtrSet | External/libevent-2.1.8-stable/buffer.c:2609-2659 | succeeds if and only if the target is at most the length (and adding does not overflow), and then yields the canonical pair |
| EvBufferSearch.PtrSubtract | External/libevent-2.1.8-stable/buffer.c:2589-2607 | succeeds if and only if the position is at least howfar, and then designates the earlier position |
| EvBufferSearch.PtrMemcmp | External/libevent-2.1.8-stable/buffer.c:2665-2699 | 0 if and only if the bytes match at the position, across chains, as long as the sum does not overflow |
| EvBufferSearch.SearchRange | External/libevent-2.1.8-stable/buffer.c:2707-2769 | for a non-empty pattern the least match at or behind start, if it ends at or before end, and -1 otherwise, whichever chains it spans |
| EvBufferLines.FindEolInPiece | External/libevent-2.1.8-stable/buffer.c:1488-1513 | the scan in 128-byte chunks finds what a plain scan for CR or LF finds |
| EvBufferLines.Strchr | External/libevent-2.1.8-stable/buffer.c:1466-1486 | the first occurrence of a byte at or behind the position, across chains |
| EvBufferLines.FindEolChar | External/libevent-2.1.8-stable/buffer.c:1515-1535 | the first CR or LF at or behind the position, across chains |
| EvBufferLines.Strspn | External/libevent-2.1.8-stable/buffer.c:1537-1574 | the number of leading bytes from the set |
| EvBufferLines.Getchr | External/libevent-2.1.8-stable/buffer.c:1577-1587 | the byte at a position, -1 at the end |
| EvBufferLines.SearchCrlf | External/libevent-2.1.8-stable/buffer.c:1625-1652 | the CRLF styles find the terminator even when CR and LF lie in different chains |
| EvBufferLines.SearchEol | External/libevent-2.1.8-stable/buffer.c:1589-1677 | for each of the five styles the first terminator and its longest form there, or -1 |
| EvBufferLines.Readln | External/libevent-2.1.8-stable/buffer.c:1679-1716 | old contents = line ++ terminator ++ new contents with the first terminator of the style, and no line if and only if the buffer is frozen, memory is out or there is no terminator |
| EvBufferGaps.SkippedChain | External/libevent-2.1.8-stable/buffer.c:669-786 | from a new buffer: reserve, reserve more, leave the first vector empty and commit five bytes in the second; moving two of them with evbuffer_remove_buffer is not safe any more |
| EvBufferGaps.EmptyPrepend | External/libevent-2.1.8-stable/buffer.c:669-786 | from a new buffer: space in two chains, then evbuffer_prepend of no bytes, then a reservation and a commit of five bytes, in one vector, which land behind the empty chain; moving two of them is not safe any more |
| EvBufferGaps.SkippedVec | External/libevent-2.1.8-stable/buffer.c:669-786 | from a new buffer: three reservations, then a commit to the last chain alone, which evbuffer_commit_space accepts and which is not safe |
| EvBufferRuns.Do | External/libevent-2.1.8-stable/buffer.c:1095-2398 | each of the calls does to the byte queue what May allows it, with memory and unfrozen ends nothing less |
| EvBufferRuns.DoMove | External/libevent-2.1.8-stable/buffer.c:960-1340 | what evbuffer_add_buffer and evbuffer_remove_buffer take from the front of one buffer goes behind the other one, all of it with memory; nothing is asked but that there are no gaps, and there are none afterwards |
| EvBufferRuns.DoPutInFront | External/libevent-2.1.8-stable/buffer.c:1049-1093 | evbuffer_prepend_buffer, called unless empty chains follow the data of its source and the destination has data: all of the source goes in front, and no gap arises |
| EvBufferRuns.Run | External/libevent-2.1.8-stable/buffer.c:670-2398 | every run of calls on two buffers, with transfers both ways and to both ends, keeps both representations and is a run of two byte queues; with memory and unfrozen ends a move in front moves everything, unless the destination has data and space was reserved in the source, or in a buffer that was moved into it, before |
| EvBufferRuns.History | External/libevent-2.1.8-stable/buffer.c:670-2398 | the same from two new buffers: in every history of these calls each one is within its conditions |
| EvBufferRuns.FirstInFirstOut | External/libevent-2.1.8-stable/buffer.c:670-2398 | in every run, for either buffer without prepends, what was there and what was put behind it is what was taken and what is left, in this order |
| EvBufferRuns.PipelineInOrder | External/libevent-2.1.8-stable/buffer.c:670-2398 | bytes that come into one buffer, are moved to another one in whole or in part, and are taken from there, come out in the order in which they came in, and none is lost while there is memory |
| EvBufferRuns.Conserved | External/libevent-2.1.8-stable/buffer.c:670-2398 | in every run no byte of either buffer is lost or made up |
| EventBase.Base.InsertActive | External/libevent-2.1.8-stable/event.c:3325-3344 | the callback is at the end of the queue of its own priority, once, and all facts of event_base_assert_ok_nolock_ hold |
| EventBase.Base.RemoveActive | External/libevent-2.1.8-stable/event.c:3184-3199 | the callback leaves the queue of its priority; the facts hold |
| EventBase.Base.InsertLater | External/libevent-2.1.8-stable/event.c:3346-3361 | a callback that is neither active nor active later joins the later queue at its end; the facts hold |
| EventBase.Base.RemoveLater | External/libevent-2.1.8-stable/event.c:3200-3214 | the callback leaves the later queue; the facts hold |
| EventBase.Base.InsertInserted | External/libevent-2.1.8-stable/event.c:3309-3323 | the event is inserted and counted; the facts hold |
| EventBase.Base.RemoveInserted | External/libevent-2.1.8-stable/event.c:3172-3183 | the event is no longer inserted; the facts hold |
| EventBase.Base.RemoveTimeout | External/libevent-2.1.8-stable/event.c:3215-3235 | the event leaves the heap or the common list that its timeout names; the facts hold |
| EventBase.Base.FindPosition | External/libevent-2.1.8-stable/event.c:3279-3307 | the position behind the last event that is not due later, searched for from the end |
| EventBase.Base.InsertCommon | External/libevent-2.1.8-stable/event.c:3279-3307 | the common list stays sorted by deadline with the event at that position; the facts hold |
| EventBase.Base.Reserve | External/libevent-2.1.8-stable/event.c:2573-2583 | succeeds exactly if the array of the heap is long enough or there is memory; then it is long enough |
| EventBase.Base.InsertHeap | External/libevent-2.1.8-stable/event.c:3363-3385 | the event is in the heap with its deadline and the facts hold, exactly if the array has room or there is memory; otherwise it counts as pending and is in no heap |
| EventBase.Base.Schedule | External/libevent-2.1.8-stable/event.c:1406-1413 | the timer of a list is pending for the deadline of its first event, and in no queue for an older timeout, exactly if it was pending already, the array of the heap has room, or there is memory; otherwise nothing changes; other lists stay scheduled |
| EventBase.Base.CallbackActivate | External/libevent-2.1.8-stable/event.c:2951-2979 | the callback is active and not active later, 1 exactly if it was neither; unless it was active it goes to the end of the queue of its priority, and from the later queue; everything else keeps its place; one that is being finalized is left alone; no list is unscheduled |
| EventBase.Base.Activate | External/libevent-2.1.8-stable/event.c:2864-2913 | the event is active, with the result added to earlier ones if it was active already; unless it was active it goes to the end of the queue of its priority and everything else keeps its place; the facts hold and no list is unscheduled |
| EventBase.Base.ActivateLater | External/libevent-2.1.8-stable/event.c:2923-2938 | the event is active or active later, with the result added if it was so already; otherwise it goes to the end of the later queue; the facts hold |
| EventBase.Base.ScheduleDeferred | External/libevent-2.1.8-stable/event.c:3068-3085 | up to the limit of deferred callbacks it goes to the end of the queue of its priority, out of the later one if it was there, beyond it to the later queue; 1 exactly if it was in none, and the counter follows; one that is being finalized is left alone |
| EventBase.Base.Del | External/libevent-2.1.8-stable/event.c:2760-2844 | the event waits for nothing and is in no queue, where everything else keeps its place, and leaves the heap or its common list; -1 exactly if the fd map fails; nothing happens to one that is being finalized |
| EventBase.Base.SetTimeout | External/libevent-2.1.8-stable/event.c:2633-2692 | an older timeout and the activity it caused are undone, the new deadline is in the right structure, for the heap if it has room or memory, and k is 0 exactly if the event heads its common list |
| EventBase.Base.Add | External/libevent-2.1.8-stable/event.c:2546-2716 | -1 exactly if it is being finalized, the heap cannot grow for an event that was not pending, or the fd map fails, and then nothing has changed; otherwise the event waits at now + tv or the absolute time, at its place of its common list or in the heap, whose timer is set, and all else keeps its place; the facts hold afterwards, with every common list scheduled, if and only if it is not the case that the event was pending in a common list, the heap is full, there is no memory, and its new place is the heap or an empty list whose timer waits for nothing |
| EventBase.Base.Delete | External/libevent-2.1.8-stable/event.c:2760-2844 | an event of the user waits for nothing afterwards and is gone from its queue, the heap or its common list, where everything else keeps its place; -1 exactly if the fd map fails; the facts hold and every common list is scheduled |
| EventBase.Base.TimeoutProcess | External/libevent-2.1.8-stable/event.c:3125-3149 | exactly the events of the heap whose deadline has come are activated, with the reason timeout, and leave the heap; they are at the end of their queues in the order of their deadlines; no other event changes |
| EventBase.Base.CommonTimeoutCallback | External/libevent-2.1.8-stable/event.c:1418-1439 | exactly the due prefix of the list is activated, in order at the end of the queues; the rest is still the list, with no field of its events changed and none of them due, and the timer is pending for it, exactly unless the array of the heap is full, the timer was not pending and there is no memory |
| EventBase.Base.MakeLaterActive | External/libevent-2.1.8-stable/event.c:3387-3400 | everything that was active later is active, behind the others of its priority and in the same order; no count of events changes, and the deferred callbacks among them are counted |
| EventBase.Base.FinalizeEvent | External/libevent-2.1.8-stable/event.c:2196-2208 | the event waits for nothing, has left its queue and its list, and is active once more, at the end of the queue of its priority, to be finalized; everything else keeps its place; one that is being finalized already is left alone; the facts hold |
| EventBase.Base.SetPriority | External/libevent-2.1.8-stable/event.c:2305-2318 | the priority changes exactly if the event is not active and the priority exists; the facts hold |
| EventBase.Base.Assign | External/libevent-2.1.8-stable/event.c:2064-2111 | a new event of the kind, flags and middle priority asked for is known and in no queue; the events there were stay; the facts hold |
| EventBase.Base.NewCommonTimeout | External/libevent-2.1.8-stable/event.c:1443-1515 | every duration has one list: that of an equal duration, which takes the same time in all, or a new, empty one behind the others with its own new internal timer, unless there are too many or no memory |
| EventBase.Base.Dispatch | External/libevent-2.1.8-stable/event.c:1590-1665 | the first callback of a queue is taken off and run; if it is the timer of a common list, exactly the due prefix of the list fires, in order; an event that is not persistent is deleted before its callback; every other event is as it was; no timeout is lost unless the array of the heap is full and there is no memory |
| EventBase.Base.RunTimer | External/libevent-2.1.8-stable/event.c:1418-1439 | after the timer of a list has run exactly the due prefix of the list has fired, in order, the rest is still the list and scheduled, unless the array of the heap is full and there is no memory, and every other event is as it was |
| EventBase.Base.NoneOverdue | External/libevent-2.1.8-stable/event.c:3884-3940 | when no event is active and nothing in the heap is due, then nothing that is pending is due, in the common lists neither |
| EventBase.NormalExact | External/libevent-2.1.8-stable/event.c:1443-1515 | two durations get the same list if and only if they take the same time and both or neither are written with exactly a million microseconds: the code normalizes what is above a million only |
| EventBase.TwoLists | External/libevent-2.1.8-stable/event.c:1443-1515 | one second and a million microseconds get two lists |
| EventBaseSpec.FlatLinked | External/libevent-2.1.8-stable/event.c:1590-3300 | the calls of a history, and the rounds that its loops are made of, are one sequence of moves, each from the state that the one before leads to |
| EventBaseSpec.FiredDue | External/libevent-2.1.8-stable/event.c:1418-3220 | a timeout fires in a pass of timeouts or with the timer of its list only, the event waits then and its deadline has come, and afterwards it does not wait any more |
| EventBaseSpec.OneWait | External/libevent-2.1.8-stable/event.c:2550-3220 | after any move an event waits for what it waited for before, for what this very call asks for, or for nothing; and for nothing only if it fired, its callback ran, or it was deleted or finalized |
| EventBaseSpec.Origin | External/libevent-2.1.8-stable/event.c:2550-3220 | in every run, what an event waits for was asked for by a call of event_add, with this deadline, and the event has waited for just this ever since |
| EventBaseSpec.FiredRightly | External/libevent-2.1.8-stable/event.c:1418-3300 | in every history from a new base: an event fires only after a call of event_add asked for it, at or after the deadline that the call gave, and if in between it neither fired nor ran nor was given up nor added again |
| EventBaseSpec.Patient | External/libevent-2.1.8-stable/event.c:2550-3220 | in every run an event goes on waiting for the same deadline until it fires, runs, is given up or is added again |
| EventBaseSpec.NotLost | External/libevent-2.1.8-stable/event.c:1877-1978 | with memory an iteration of the loop fires an event that waits and is in no queue if and only if its deadline has come; otherwise it still waits for the same deadline afterwards |
| EventBaseOrder.AlwaysFiled | External/libevent-2.1.8-stable/event.c:3884-3940 | in every history from a new base the queue of a priority holds exactly the active events of this priority, each once, and else only timers of common lists, in queue 0; the later queue holds exactly what is active later; the common lists hold events that wait in them, sorted by deadline |
| EventBaseOrder.LoopsInHistory | External/libevent-2.1.8-stable/event.c:1877-1978 | so what follows about an iteration holds of each one in every history |
| EventBaseOrder.HighestFirst | External/libevent-2.1.8-stable/event.c:1714-1757 | in an iteration a callback runs only while no event of a higher priority is active, nor the timer of a common list unless the priority is 0, and it is the first of its queue |
| EventBaseOrder.TimersFirst | External/libevent-2.1.8-stable/event.c:1418-1439 | events of a common list fire in an iteration only while the timer of the list is the first callback of queue 0 |
| EventBaseOrder.FirstComeFirstServed | External/libevent-2.1.8-stable/event.c:1590-1765 | of two events of the same priority the one in front runs first, in any iteration, unless its timeout fires in between, which puts it at the end |
| EventBaseOrder.TurnKeptByCalls | External/libevent-2.1.8-stable/event.c:2550-3220 | no call about another event changes the order of two in a queue |
| EventBaseOrder.ActivatedBehind | External/libevent-2.1.8-stable/event.c:2864-2913 | an event that becomes active goes behind all that are active with its priority |
| EventBaseOrder.JoinsInTurn | External/libevent-2.1.8-stable/event.c:3387-3400 | what was active later, and what fires, joins the queue of its priority in its own order, behind the others |
| EventBaseOrder.RunsExactly | External/libevent-2.1.8-stable/event.c:1877-1978 | with memory the callbacks of the users that run in an iteration are exactly those of the events that were active or active later when it began, and of those whose timeouts fire in it |
| EventBaseOrder.RunsWhenDue | External/libevent-2.1.8-stable/event.c:1877-1978 | so the callback of an event that waits and is in no queue runs in an iteration if and only if its deadline has come |
| EventBaseOrder.Adds | External/libevent-2.1.8-stable/event.c:2546-2716 | in every state of a history: nothing happens to an event that is being finalized or that the fd map refuses, or, without memory, to one that does not wait; otherwise it waits for now + time or the absolute time, in a common list behind all that are due no later and in front of all others |
| EventBaseOrder.Deletes | External/libevent-2.1.8-stable/event.c:2760-2844 | an event of the user waits for nothing afterwards and is in no queue and no list, unless it is being finalized |
| EventBaseOrder.Activates | External/libevent-2.1.8-stable/event.c:2864-2913 | the callback is to run, now or in the next iteration, and what the event waits for stays |
| EventBaseOrder.Finalizes | External/libevent-2.1.8-stable/event.c:2196-2208 | the callback runs once more and the event waits for nothing; a second call does nothing |
| EventBaseOrder.Runs | External/libevent-2.1.8-stable/event.c:1590-1665 | a callback that runs is not active any more, and its event goes on waiting only if it is persistent; nothing else changes |
| EventBaseOrder.Prioritizes | External/libevent-2.1.8-stable/event.c:2305-2318 | an event that is not active gets any priority that there is, and nothing else changes |
| EventBaseOrder.OthersStay | External/libevent-2.1.8-stable/event.c:2550-3220 | a call about one event leaves what all others wait for, and whether they are active, as it was |
| EventBaseOrder.FiresInOrder | External/libevent-2.1.8-stable/event.c:3125-3149 | what fires in a pass of timeouts does so in the order of the deadlines |
| EventBaseOrder.RingsDue | External/libevent-2.1.8-stable/event.c:1418-1439 | when the timer of a common list runs, exactly those events of the list fire whose deadline has come, in the order of the list |
| EventBaseRuns.DoAdd | External/libevent-2.1.8-stable/event.c:2546-2716 | event_add for any event of a run: queues, lists and what every event waits for become what the plain machine says (Added), or nothing changes; a timeout is lost exactly in the state and without the memory that Strands says |
| EventBaseRuns.DoPass | External/libevent-2.1.8-stable/event.c:3125-3149 | a pass of timeouts is that of the plain machine: of the events of the users in the heap exactly the due ones fire, each once, in the order of their deadlines, and every other event and list is as it was |
| EventBaseRuns.DoDispatch | External/libevent-2.1.8-stable/event.c:1590-1665 | the dispatch of any callback is that of the plain machine: the timer of a common list fires exactly the due prefix of its list, another callback runs and gives up its timeout unless the event is persistent, and all else is as it was |
| EventBaseRuns.Iterate | External/libevent-2.1.8-stable/event.c:1877-1978 | an iteration, that is the loop until no event is active, while callbacks call nothing: it ends, each of its rounds is one of the plain machine with the first queue that has something, and with memory nothing is active or due afterwards |
| EventBaseRuns.Do | External/libevent-2.1.8-stable/event.c:1590-3300 | each of eleven calls makes of the base what the plain machine says (Played); a timeout is lost only if a call runs out of memory |
| EventBaseRuns.History | External/libevent-2.1.8-stable/event.c:1590-3300 | every history from a new base, in any order of assign, common timeout, add, delete, activate, finalize, priority, later callbacks, timeout pass, dispatch and loop, is a history of the plain machine, step by step, and in the end queues, lists and events are as the machine says; it only ends early when a timeout is lost, which with memory never happens |
| EventBaseRuns.LostInList | External/libevent-2.1.8-stable/event.c:2573-2583 | a run from a new base that loses a timeout: an event of one common list is added again to an empty one while the array of the heap is full and cannot grow; event_add returns 0 and the list has no timer |
| EventBaseRuns.LostForHeap | External/libevent-2.1.8-stable/event.c:2573-2583 | a run that loses another one: the same, added again for the heap; the event counts as pending and is in no heap and no list |
| DnsNames.NameParse | External/libevent-2.1.8-stable/evdns.c:959-1013 | terminates for every packet (remaining jumps, then remaining bytes), reads only packet[..length] and writes only nameOut[..nameOutLen]; it succeeds exactly if Parse does, with a terminated name that fits and *idx strictly forward, at most length |
| DnsNames.ParseExact | External/libevent-2.1.8-stable/evdns.c:959-1013 | exactly the names that the message spells (section 4.1.4 of RFC 1035) with no more jumps than it has bytes, and that fit the output, are parsed |
| DnsNames.ParseSound | External/libevent-2.1.8-stable/evdns.c:959-1013 | whatever is parsed is spelled by the message |
| DnsNames.ParseComplete | External/libevent-2.1.8-stable/evdns.c:959-1013 | whatever the message spells, and fits, is parsed |
| DnsNames.SpelledBack | External/libevent-2.1.8-stable/evdns.c:959-1013 | a message that spells the labels of a well-formed name parses to this name |
| DnsNames.WellFormedExact | External/libevent-2.1.8-stable/evdns.c:1599-1653 | the names that the results about encoding are for: at most 255 bytes, labels of 1 to 63 bytes, and no dot at the end |
| DnsNames.Table.constructor | External/libevent-2.1.8-stable/evdns.c:1541-1545 | a new table has no entry |
| DnsNames.Table.GetPos | External/libevent-2.1.8-stable/evdns.c:1559-1568 | the position of an entry with this name; -1 exactly if there is none |
| DnsNames.Table.AddEntry | External/libevent-2.1.8-stable/evdns.c:1571-1586 | the entry is added at the end exactly if there is room and memory; a failed call changes nothing |
| DnsNames.PointerExact | External/libevent-2.1.8-stable/evdns.c:1626-1629 | the two bytes of a pointer lead back to the offset if and only if it is below 0x4000 |
| DnsNames.PointerRead | External/libevent-2.1.8-stable/evdns.c:978-992 | two bytes 192 + t / 256 and t % 256 are read as a pointer to offset t |
| DnsNames.SpelledOut | External/libevent-2.1.8-stable/evdns.c:959-1013 | what a message spells without a pointer is written out there, label by label |
| DnsNames.LitsAt | External/libevent-2.1.8-stable/evdns.c:1630-1653 | each label is written behind a byte that holds its length, and the first byte of the next one follows directly |
| DnsNames.EncodeLabel | External/libevent-2.1.8-stable/evdns.c:1630-1653 | writing out one label, with or without an entry in the table, keeps what the encoding has achieved so far |
| DnsNames.EncodePointer | External/libevent-2.1.8-stable/evdns.c:1626-1629 | ending a name with a pointer to an entry spells the name, and the pointer goes to before the name |
| DnsNames.DnsnameToLabels | External/libevent-2.1.8-stable/evdns.c:1599-1663 | the message spells the name from the offset on, every table entry stays true of the message and pointers only go back; a well-formed name fails only for want of room; a name the table has costs two bytes; without a table the labels are written out and a zero byte behind them; with memory and room in the table a new one is remembered |
| DnsNames.EncodeNames | External/libevent-2.1.8-stable/evdns.c:1599-1663 | any list of names encoded one after another with a shared table parses back to the same names, each ending where the next one starts, as long as offsets stay below 0x4000; names that fit uncompressed always fit |
| DnsRequests.Insert | External/libevent-2.1.8-stable/evdns.c:2720-2734 | the request is at the tail of the circular list, whose links are consistent in both directions |
| DnsRequests.Remove | External/libevent-2.1.8-stable/evdns.c:2682-2717 | the request is out of the circular list, the others stay in order and the head is right |
| DnsRequests.Unlinked | External/libevent-2.1.8-stable/evdns.c:2682-2717 | making the two neighbours point at each other leaves a consistent circular list |
| DnsRequests.InsertHashed | External/libevent-2.1.8-stable/evdns.c:2823-2832 | the request joins the list trans_id % n and no other; the table holds it and nothing else new |
| DnsRequests.RemoveHashed | External/libevent-2.1.8-stable/evdns.c:648-662 | the request leaves its list; the table holds exactly the others |
| DnsRequests.FindHashed | External/libevent-2.1.8-stable/evdns.c:468-483 | null if and only if no request of the table has this id; otherwise the first one of its list |
| DnsRequests.Rehash | External/libevent-2.1.8-stable/evdns.c:3385-3414 | every request moves to its list in the new table, and none is lost or doubled |
| DnsRequests.SomeFree | External/libevent-2.1.8-stable/evdns.c:1317-1329 | with fewer requests than ids below 0xffff some id is free |
| DnsRequests.TransactionIdPick | External/libevent-2.1.8-stable/evdns.c:1317-1329 | the id is below 0xffff and no request in flight has it |
| DnsResolver.Resolver.constructor | External/libevent-2.1.8-stable/evdns.c:3899-3976 | a resolver starts with no request, no server, 64 places in flight and a new table |
| DnsResolver.Resolver.AddNameserver | External/libevent-2.1.8-stable/evdns.c:2541-2552 | the server is linked in behind the head of the circular list and counted as good |
| DnsResolver.Resolver.NameserverPick | External/libevent-2.1.8-stable/evdns.c:1334-1367 | null exactly without servers; with a good one the first that is up from the head on, and the list goes on behind it; otherwise the next one |
| DnsResolver.Resolver.Promote | External/libevent-2.1.8-stable/evdns.c:742-766 | the head of the waiting queue gets a server and an id not in use and goes into flight; lists, places and counters stay right |
| DnsResolver.Resolver.Pump | External/libevent-2.1.8-stable/evdns.c:742-770 | exactly as many requests as there are places go into flight, from the front of the queue, if there is a server, and each of them is sent once, unless its transmission is choked, after which it waits to be sent; what waited to be sent before is sent if one of the rounds is not choked; nothing else moves, and what goes on waiting is not sent |
| DnsResolver.PassesExact | External/libevent-2.1.8-stable/evdns.c:2344-2366 | after any number of rounds of evdns_transmit a request was sent, and once, if and only if it waited for this and one of them was not choked |
| DnsResolver.Resolver.RequestNew | External/libevent-2.1.8-stable/evdns.c:2746-2821 | null exactly without memory, for a name of 256 bytes or more, or one that cannot be encoded; with room in flight the request gets an id not in use and a server (if there is one), otherwise no server |
| DnsResolver.Resolver.RequestSubmit | External/libevent-2.1.8-stable/evdns.c:2823-2841 | a request with a server goes into flight and is sent, any other one goes to the end of the waiting queue; one that the server refuses moves to a server that is up, if there is one; lists and counters stay right |
| DnsResolver.Resolver.RequestFinished | External/libevent-2.1.8-stable/evdns.c:648-706 | the request is gone from its list, the counters follow, and exactly as many waiting requests as there are places then go into flight from the front of the queue, and are sent, as is what waits for it (AllSent); no other request moves |
| DnsResolver.Resolver.InOneList | External/libevent-2.1.8-stable/evdns.c:2865-2875 | a request is in flight or waiting, never both, and it has a server exactly if it is in flight |
| DnsResolver.Resolver.CancelRequest | External/libevent-2.1.8-stable/evdns.c:2844-2877 | the list that the request leaves is told from its server, rightly; exactly as many waiting requests as there are places then go into flight from the front of what is left of the queue, and are sent, as is what waits for it (AllSent); no other request moves |
| DnsResolver.Resolver.RequestSwapNs | External/libevent-2.1.8-stable/evdns.c:544-553 | the request changes server and both counters follow; they never go below zero |
| DnsResolver.Resolver.RequestReissue | External/libevent-2.1.8-stable/evdns.c:714-735 | the request goes to the first server that is up, or to the next one if none is; 1 exactly if that is the one it had, and then nothing is to be sent; otherwise it is to be sent there anew |
| DnsResolver.Resolver.Reassign | External/libevent-2.1.8-stable/evdns.c:606-610 | one request of the walk: never sent and with the failed server, it goes to one that is up; any other one is left alone |
| DnsResolver.Resolver.SettleList | External/libevent-2.1.8-stable/evdns.c:603-613 | the walk round one circular list comes to every request of it |
| DnsResolver.Resolver.NameserverFailed | External/libevent-2.1.8-stable/evdns.c:557-615 | the server is down and counted; if another one is up, no request that was never sent stays with it, and no other request changes server |
| DnsResolver.Resolver.NameserverUp | External/libevent-2.1.8-stable/evdns.c:617-636 | the server is up and counted |
| DnsResolver.Resolver.RequestTransmit | External/libevent-2.1.8-stable/evdns.c:2237-2286 | a refused transmission takes the server down, moves the request if another server is up and it was never sent before, and counts as sent all the same; a choked one waits to be sent again |
| DnsResolver.Resolver.Transmit | External/libevent-2.1.8-stable/evdns.c:2344-2366 | every request in flight that waits for its transmission is tried exactly once, and no other one; lists, counters and servers stay right |
| DnsResolver.Resolver.SetMaxRequestsInflight | External/libevent-2.1.8-stable/evdns.c:3385-3414 | the table is rehashed to a new one of (max + 4) / 5 lists with the invariant intact, a number below 1 counting as 1; without memory nothing changes |
| DnsResolver.Resolver.RequestFindFromTransId | External/libevent-2.1.8-stable/evdns.c:468-483 | an id is found if and only if some request in flight has it, in every reachable state of the model, and then it is the only one that has it |
| DnsResolverSpec.AlwaysInPlace | External/libevent-2.1.8-stable/evdns.c:579-770 | in every history each request submitted waits, is in flight, was finished or was cancelled, exactly one of these, and those that wait do so in the order in which they were submitted |
| DnsResolverSpec.InOrder | External/libevent-2.1.8-stable/evdns.c:727-770 | no call puts a waiting request into flight before one that has waited longer |
| DnsResolverSpec.StaysSettled | External/libevent-2.1.8-stable/evdns.c:579-770 | no call but a new server or a new limit leaves a request waiting while there is a place in flight |
| DnsResolverSpec.Overtakes | External/libevent-2.1.8-stable/evdns.c:2823-2841 | a new request goes into flight before those that wait if and only if somebody waits although there is a place |
| DnsResolverSpec.Overtaken | External/libevent-2.1.8-stable/evdns.c:579-770 | a run in which this happens: a request that waits for want of a server, a new server, after which nothing is pumped, and a second request, which is sent at once |
| DnsResolverSpec.WithinLimit | External/libevent-2.1.8-stable/evdns.c:727-770 | no call raises the number of requests in flight above the limit |
| DnsResolverSpec.DroppedOne | External/libevent-2.1.8-stable/evdns.c:2844-2877 | a waiting request that is cancelled leaves the others in their order |
| DnsResolverSpec.Ends | External/libevent-2.1.8-stable/evdns.c:627-716 | a request that is finished or cancelled ends for good, no other one does, and nobody waits afterwards while there is a place |
| DnsResolverSpec.TakesOn | External/libevent-2.1.8-stable/evdns.c:2823-2841 | a request is taken on if and only if there is memory, its name has less than 256 bytes and could be encoded, and goes into flight if and only if there is a place and a server |
| DnsResolverSpec.MovesNone | External/libevent-2.1.8-stable/evdns.c:579-770 | no other call moves a request; the limit is the one asked for, but at least 1 and only if it is at most 65000 and there is memory |
| DnsResolverSpec.Launched | External/libevent-2.1.8-stable/evdns.c:727-770 | whatever call puts a request into flight also sends it once, unless its first transmission is choked, and then it waits for the next one |
| DnsResolverSpec.AlwaysTended | External/libevent-2.1.8-stable/evdns.c:579-770 | in every history each request in flight was sent since it got its server, or waits to be sent |
| DnsResolverSpec.SentFirst | External/libevent-2.1.8-stable/evdns.c:742-770 | a request that goes into flight from the queue is not sent only if its transmission is choked, and again after each request that follows it |
| DnsResolverSpec.SentAgain | External/libevent-2.1.8-stable/evdns.c:742-770 | while the queue is pumped a request in flight is sent once more if and only if it waits for this and one of the rounds is not choked |
| DnsResolverSpec.SentWritable | External/libevent-2.1.8-stable/evdns.c:2344-2366 | evdns_transmit sends exactly the requests that wait for it and are not choked again |
| DnsResolverSpec.SentAnew | External/libevent-2.1.8-stable/evdns.c:2237-2286 | a new transmission is counted unless it is choked; a request that request_reissue has moved waits to be sent |
| DnsResolverRuns.DoSubmit | External/libevent-2.1.8-stable/evdns.c:2823-2841 | a new request gets the next number and is in flight, and sent, exactly if there is a place and a server, and otherwise the last one that waits; null exactly as for request_new, and then nothing changes |
| DnsResolverRuns.DoPump | External/libevent-2.1.8-stable/evdns.c:742-770 | exactly as many requests as there are places go into flight, from the front of the queue, if there is a server, and what is sent meanwhile is what the plain machine says |
| DnsResolverRuns.DoFinish | External/libevent-2.1.8-stable/evdns.c:648-706 | a request in flight that is finished has ended, and exactly as many as there are places then take its place from the front of the queue |
| DnsResolverRuns.DoCancel | External/libevent-2.1.8-stable/evdns.c:2844-2877 | a request that is cancelled has ended, whether it was in flight or waited; the others keep their order, and exactly as many as there are places go into flight from the front |
| DnsResolverRuns.Do | External/libevent-2.1.8-stable/evdns.c:579-770 | each of eleven calls leads from one state of the plain machine to the next: which requests wait, in which order, which are in flight, how often each of these was sent and whether it waits for this, and which have ended |
| DnsResolverRuns.History | External/libevent-2.1.8-stable/evdns.c:579-770 | every history from a new resolver, in any order of new servers, submissions, replies, cancellations, transmissions, reissues, failing and recovering servers, pumping and changes of the limit: the requests that wait, in their order, those in flight, and how often each was sent, are exactly what the plain machine computes from the calls (and from what request_reissue says) |
| TokenBucket.RefillExact | External/libevent-2.1.8-stable/bufferevent_ratelim.c:73-111 | the overflow-free 64-bit computation is min(maximum, limit + n * rate) if and only if the limit is not above the maximum (or the wrap-around happens to hide it) |
| TokenBucket.RefillAboveMaximum | External/libevent-2.1.8-stable/bufferevent_ratelim.c:73-111 | a limit above the maximum, which a negative decrement can make, keeps growing: a concrete bucket |
| TokenBucket.RefillsCompose | External/libevent-2.1.8-stable/bufferevent_ratelim.c:73-111 | two refills in a row are one |
| TokenBucket.Bucket.Init | External/libevent-2.1.8-stable/bufferevent_ratelim.c:49-71 | a new bucket starts with one tick of tokens; reinitializing only clips downwards |
| TokenBucket.Bucket.Update | External/libevent-2.1.8-stable/bufferevent_ratelim.c:73-111 | for n ticks, from 1 to INT_MAX, that the 32-bit counter shows both directions hold n * rate more, but no more than the maximum, and for none or more nothing happens |
| TokenBucket.UpdatedAfter | External/libevent-2.1.8-stable/bufferevent_ratelim.c:74-111 | the same of the function on values, for every n below 2^32 and wherever the counter wraps around |
| TokenBucket.TicksBound | External/libevent-2.1.8-stable/bufferevent_ratelim.c:79-85 | whatever the counter wraps to, no more ticks are counted than have passed |
| TokenBucket.MovedBound | External/libevent-2.1.8-stable/bufferevent_ratelim.c:197-308 | what was moved and what is left is at most what there was and what the ticks brought, for every run |
| TokenBucket.NeverNegative | External/libevent-2.1.8-stable/bufferevent_ratelim.c:197-308 | the limit never becomes negative as long as every transfer is at most what was allowed |
| TokenBucket.Throughput | External/libevent-2.1.8-stable/bufferevent_ratelim.c:197-308 | in any window at most burst + ticks * rate bytes move, for every run and every state of the counter, even if the bucket was overdrawn when it began |
| TokenBucket.AllowedMore | External/libevent-2.1.8-stable/bufferevent_ratelim.c:197-308 | a transfer of at most what is left continues an allowed run, and the bucket afterwards is the one after the longer run |
| RateLimit.Bev.Suspend | External/libevent-2.1.8-stable/bufferevent.c:66-76 | the reason is added and the backend is off |
| RateLimit.Bev.Unsuspend | External/libevent-2.1.8-stable/bufferevent.c:78-88 | the reason is gone, and the backend is on exactly if the direction is enabled and no reason is left |
| RateLimit.Bev.Enable | External/libevent-2.1.8-stable/bufferevent.c:459-480 | the direction is enabled; the backend is on exactly if no reason speaks against it; nobody is stranded |
| RateLimit.Bev.Disable | External/libevent-2.1.8-stable/bufferevent.c:550-563 | the direction is disabled and the backend off; the reasons stay |
| RateLimit.Bev.DecrementOwn | External/libevent-2.1.8-stable/bufferevent_ratelim.c:272-308 | the bucket loses the bytes; the direction carries the bandwidth reason exactly if the bucket is exhausted; the refill timer is pending while either direction does |
| RateLimit.Bev.DecrementLimit | External/libevent-2.1.8-stable/bufferevent_ratelim.c:971-996 | the bucket loses the amount; an exhausted direction carries the bandwidth reason and the refill timer is pending |
| RateLimit.Bev.RefillCallback | External/libevent-2.1.8-stable/bufferevent_ratelim.c:393-439 | both directions are refilled, resumed exactly if there is something in the bucket, and the timer is pending again exactly if one still waits |
| RateLimit.Bev.SetRateLimit | External/libevent-2.1.8-stable/bufferevent_ratelim.c:559-636 | -1 changes nothing; the same configuration changes nothing; a new one starts with one tick, another one clips; the bandwidth reasons and the timer are right; none removes them |
| RateLimit.GroupIffMembers | External/libevent-2.1.8-stable/bufferevent_ratelim.c:348-391 | in every state of the invariant a group is suspended if and only if every member, and if and only if any member, carries the group reason |
| RateLimit.LocalStep | External/libevent-2.1.8-stable/bufferevent.c:66-112 | a call about one bufferevent, and not about its group, keeps the invariant of all bufferevents and groups |
| RateLimit.SuspendGroup | External/libevent-2.1.8-stable/bufferevent_ratelim.c:349-371 | the group and all its members are suspended; nothing else about them changes |
| RateLimit.UnsuspendGroup | External/libevent-2.1.8-stable/bufferevent_ratelim.c:487-504 | the group and all its members are resumed, whichever member the loop starts with |
| RateLimit.GroupShare | External/libevent-2.1.8-stable/bufferevent_ratelim.c:228-253 | for n members share * n <= limit < (share + 1) * n, or the share is the minimum share and limit < (share + 1) * n; 0 while the group is suspended |
| RateLimit.GetRlimMax | External/libevent-2.1.8-stable/bufferevent_ratelim.c:197-258 | exactly as much as the own bucket after a refill, or else the maximum for one call, and the group share both allow, never negative: what the own bucket holds, or else at least the minimum share and no less than an even part of the bucket of the group, rounded down, and never more than both; the bucket and its time of update afterwards |
| RateLimit.DecrementBuckets | External/libevent-2.1.8-stable/bufferevent_ratelim.c:272-308 | own and group bucket lose the bytes and nothing else; the direction and the group are suspended exactly if their buckets are exhausted, the other direction is as it was; the invariant of all members holds |
| RateLimit.GroupDecrement | External/libevent-2.1.8-stable/bufferevent_ratelim.c:1027-1045 | the group bucket loses the amount, and the group is suspended or resumed exactly if the sign of the bucket changed |
| RateLimit.GroupRefillCallback | External/libevent-2.1.8-stable/bufferevent_ratelim.c:528-557 | the group is refilled and resumed exactly if its bucket holds the minimum share |
| RateLimit.GroupRecovers | External/libevent-2.1.8-stable/bufferevent_ratelim.c:528-557 | enough ticks always bring the minimum share: no group stays suspended for ever |
| RateLimit.SetMinShare | External/libevent-2.1.8-stable/bufferevent_ratelim.c:703-722 | the share is clipped to one tick of either direction and the configured one is kept; too large a number changes nothing |
| RateLimit.SetGroupCfg | External/libevent-2.1.8-stable/bufferevent_ratelim.c:672-701 | the bucket is clipped to the new maxima and the share is derived again from the configured one |
| RateLimit.AddToGroup | External/libevent-2.1.8-stable/bufferevent_ratelim.c:735-780 | the bufferevent is in the new group and in no other, and suspended exactly if the group is; without memory nothing changes |
| RateLimit.RemoveFromGroup | External/libevent-2.1.8-stable/bufferevent_ratelim.c:788-810 | the bufferevent is in no group and no direction carries the group reason; the group loses this member and no other |
| RateLimit.NewBev | External/libevent-2.1.8-stable/bufferevent.c:290-364 | the invariant holds with a new bufferevent that has a bucket of its own, no limit and no group, and is disabled |
| RateLimit.NewGroup | External/libevent-2.1.8-stable/bufferevent_ratelim.c:638-670 | the invariant holds with a new group that has a bucket of its own, no members and the configuration asked for, and is not suspended |
| RateLimit.Happen | External/libevent-2.1.8-stable/bufferevent_ratelim.c:272-636 | whatever the user, the rest of the library or the refill timer may do to a bufferevent at any time keeps the invariant and achieves what it is for (Happened): the reason or the flag, the new limit, the lowered bucket, or what the timer resumes |
| RateLimitSpec.LineLives | External/libevent-2.1.8-stable/bufferevent_ratelim.c:197-360 | whatever is called, in a group or not: the transfers of a bufferevent whose configuration stays the same and into whose bucket nobody puts tokens are an allowed run, and what is left in its bucket is at most what the run leaves |
| RateLimitSpec.LineThroughput | External/libevent-2.1.8-stable/bufferevent_ratelim.c:197-360 | from anywhere in any history on such a bufferevent moves at most burst + ticks * rate bytes in either direction, whatever the 32-bit tick counter does |
| RateLimitSpec.FundedAlways | External/libevent-2.1.8-stable/bufferevent_ratelim.c:197-1066 | in every history in which the minimum share of a group was never set to 0 the group is suspended or has something in its bucket |
| RateLimitSpec.ShareBound | External/libevent-2.1.8-stable/bufferevent_ratelim.c:228-253 | an even share overdraws the bucket of a group by at most the minimum share |
| RateLimitSpec.PoolStep | External/libevent-2.1.8-stable/bufferevent_ratelim.c:272-557 | one call, seen from one group: its timer refills it, and otherwise it loses exactly what a member moves, or more, and is never overdrawn by more than the minimum share |
| RateLimitSpec.LedgerRefreshed | External/libevent-2.1.8-stable/bufferevent_ratelim.c:528-557 | the books of a group stay right when its timer runs: moved + limit is at most burst + the worth of the ticks since the beginning |
| RateLimitSpec.GroupThroughput | External/libevent-2.1.8-stable/bufferevent_ratelim.c:197-1066 | from anywhere in any history on, while its configuration and share stay the same and nobody puts tokens into its bucket: all members of a group together, whoever joins or leaves and whatever happens elsewhere, move at most burst + one minimum share + ticks * rate bytes in either direction |
| RateLimitSpec.JustSeen | External/libevent-2.1.8-stable/bufferevent_ratelim.c:528-557 | when a group has just been made or its timer has run, the counter shows no earlier ticks, so that the bound holds from then on |
| RateLimitSpec.AloneMoves | External/libevent-2.1.8-stable/bufferevent_ratelim.c:197-258 | a bufferevent without a group moves the least of what it wants and what its own bucket holds |
| RateLimitSpec.MemberMoves | External/libevent-2.1.8-stable/bufferevent_ratelim.c:197-258 | a member of a group that is suspended moves nothing; one of a group that is not moves what it wants, what its own bucket holds, or at least its part of the bucket of the group, rounded down, and never more than the minimum share but for this part |
| RateLimitSpec.EnrolledAlways | External/libevent-2.1.8-stable/bufferevent_ratelim.c:735-812 | in every history groups count their members rightly |
| RateLimitSpec.GuardedAlways | External/libevent-2.1.8-stable/bufferevent_ratelim.c:272-360 | in every history a direction that has used up its bucket is suspended for it, and while one is the refill timer is pending: nothing goes on over its limit, and nothing waits without a timer to resume it |
| RateLimitSpec.TimerResumes | External/libevent-2.1.8-stable/bufferevent_ratelim.c:393-439 | the timer refills both directions and resumes exactly those whose bucket holds something then; it is pending again exactly if one is still suspended; other reasons stay |
| RateLimitSpec.MovedIsCharged | External/libevent-2.1.8-stable/bufferevent_ratelim.c:272-308 | what is moved is taken from the own bucket, and the direction is suspended exactly if nothing is left |
| RateLimitSpec.MovedIsDrawn | External/libevent-2.1.8-stable/bufferevent_ratelim.c:272-308 | what a member moves is taken from the bucket of the group, which is suspended exactly if nothing is left |
| RateLimitSpec.LimitIsSet | External/libevent-2.1.8-stable/bufferevent_ratelim.c:559-636 | a new configuration starts with one tick, another one clips, the same one changes nothing; a direction is suspended exactly if it has nothing then; none resumes both |
| RateLimitSpec.TakenByHand | External/libevent-2.1.8-stable/bufferevent_ratelim.c:971-996 | what is taken by hand suspends or resumes exactly if the bucket, or that of the group, runs dry or holds something again |
| RateLimitSpec.GroupResumes | External/libevent-2.1.8-stable/bufferevent_ratelim.c:528-557 | the timer of a group refills it, and resumes it exactly if it then has the minimum share |
| RateLimitSpec.BytesCounted | External/libevent-2.1.8-stable/bufferevent_ratelim.c:197-308 | the bytes that the bounds are about are those that the calls move |
| RateLimitSpec.SharedFully | External/libevent-2.1.8-stable/bufferevent_ratelim.c:228-253 | in every history n members of a group that is not suspended, asking at the same level, together are granted at least limit - n + 1, unless they want less or their own buckets stop them |
| RateLimitRuns.DoOn | External/libevent-2.1.8-stable/bufferevent_ratelim.c:272-636 | whatever the user or the rest of the library does to one bufferevent makes of it what the plain machine says (Happens) and changes nothing else |
| RateLimitRuns.DoTimer | External/libevent-2.1.8-stable/bufferevent_ratelim.c:393-439 | the refill timer of a bufferevent makes of it what the plain machine says (Rings) |
| RateLimitRuns.Ask | External/libevent-2.1.8-stable/bufferevent_ratelim.c:197-258 | what is wanted and allowed is exactly the amount of the plain machine, and asking for it updates the own bucket and nothing else |
| RateLimitRuns.Charge | External/libevent-2.1.8-stable/bufferevent_ratelim.c:272-308 | telling the buckets what was moved lowers the own one and that of the group, and suspends, resumes and sets the timer as the plain machine says |
| RateLimitRuns.DoIo | External/libevent-2.1.8-stable/bufferevent_ratelim.c:197-308 | a transfer moves exactly the amount of the plain machine and leads to its next state |
| RateLimitRuns.DoJoin | External/libevent-2.1.8-stable/bufferevent_ratelim.c:735-780 | the bufferevent is in this group and in no other, the numbers of members follow, and all else is as it was; without memory nothing changes |
| RateLimitRuns.DoLeave | External/libevent-2.1.8-stable/bufferevent_ratelim.c:788-810 | the bufferevent is in no group, and the number of members follows |
| RateLimitRuns.DoTake | External/libevent-2.1.8-stable/bufferevent_ratelim.c:1027-1045 | what is taken from the bucket of a group by hand: its next state is that of the plain machine, and that of everything else stays |
| RateLimitRuns.DoGroupTimer | External/libevent-2.1.8-stable/bufferevent_ratelim.c:528-557 | the timer of a group: the same |
| RateLimitRuns.Do | External/libevent-2.1.8-stable/bufferevent_ratelim.c:197-1066 | each of eleven calls leads from one state of the plain machine to the next, of all bufferevents and groups, and moves exactly as much as the machine says |
| RateLimitRuns.History | External/libevent-2.1.8-stable/bufferevent_ratelim.c:197-1066 | every history from nothing, of new bufferevents and groups, limits, transfers, timers, joining, leaving and new configurations: in the end buckets, reasons, timers and groups are as the plain machine says, every call has moved what the machine says, and the backend of a direction is on if and only if it is enabled, no reason speaks against it and its group is not suspended |
| Framing.NetworkOrder | src/connector.cc:170-175 | the length is the sum of the four bytes with the weights 2^24, 2^16, 2^8 and 1, and these bytes are written for it, the high one first |
| Framing.FirstMessage | src/connector.cc:155-210 | the first message of any stream is the bytes behind the first four, as many as these say, most significant first; a length of 0 or above 2^20 ends the stream |
| Framing.DeframeAppend | src/connector.cc:155-210 | a stream may be taken apart before the rest of it has arrived: what comes out is the same |
| Framing.DeframeFrames | src/connector.cc:155-304 | every prefix of a stream of messages yields exactly the messages that are complete, in order, and the whole stream all of them |
| Framing.SwapHeader | src/connector.cc:170-175 | the four bytes of a header are swapped in place, once, and nothing else changes |
| Framing.ConCom.constructor | src/connector.cc:15-23 | a connection object starts closed, with nothing received and the largest send limit |
| Framing.ConCom.Free | src/connector.cc:46-65 | the buffers are gone and the state is that of a closed connection |
| Framing.ConCom.DisConnect | src/connector.cc:106-115 | OnDisconnected is called once, and not for a connection that is closed already |
| Framing.ConCom.SetSocketInfo | src/connector.cc:68-89 | an object that has a connection keeps it; otherwise the new one starts with nothing received |
| Framing.ConCom.OnEvent | src/connector.cc:211-248 | an established connection is marked so and stays in step with the stream; any other event closes it, once |
| Framing.ConCom.ReadHeader | src/connector.cc:160-182 | the header is read and swapped exactly once per message, the most significant byte first; a length of 0 or above the limit means that the stream is bad from there on and everything before it has been delivered |
| Framing.ConCom.OnRecv | src/connector.cc:199-204 | the user gets the message, and may send any messages on the same connection and close it: what has arrived stays as it is, and the connection is open or the user has closed it |
| Framing.ConCom.Deliver | src/connector.cc:191-208 | one message leaves the buffer and is delivered, and the rest is still the rest of the stream |
| Framing.ConCom.ReadCallback | src/connector.cc:155-210 | the loop ends, and then the messages delivered are exactly those that are complete in all that came over the wire; with memory the connection is only closed by the user or by a bad length |
| Framing.ConCom.OnReadable | src/connector.cc:155-210 | whatever arrives in whatever pieces, the state stays in step with the stream |
| Framing.QueueFrame | src/connector.cc:291-303 | the frame of the message goes to the end of the output; a failure leaves nothing or the header there |
| Framing.ConCom.SendPack | src/connector.cc:249-304 | success queues the length in four bytes, most significant first, and then the message; it fails exactly for what is checked before, or for want of memory, and closes the connection if and only if the output is above the buffer limit |
| Framing.Delivered | src/connector.cc:155-304 | a peer that sends messages with SendPack: at any time those that arrived whole have been delivered, in order, and once all has arrived all have been and nothing is left |
| FramingRuns.DoSend | src/connector.cc:249-304 | a message that is sent goes behind everything that has arrived, is on its way or waits; a send that fails adds nothing |
| FramingRuns.DoCarry | External/libevent-2.1.8-stable/bufferevent_sock.c:287-306 | the socket takes bytes from the front of the output, in order |
| FramingRuns.DoArrive | src/connector.cc:155-210 | whatever arrives the receiving connection stays open, unless its user closes it, and nothing is lost; as much is read as has come, as far as the kernel and the limit of one read allow |
| FramingRuns.Run | src/connector.cc:155-304 | any run of sends and of bytes that travel on in pieces of any size: arrived ++ on its way ++ waiting is the stream of all messages sent, and what has been received is the first of them |
| FramingRuns.Converse | src/connector.cc:155-304 | in the end of every conversation exactly the messages that were sent have been received, whole and in order; if the user of the receiving connection has closed it, the first of them |
| FramingRuns.Connected | src/connector.cc:68-220 | a new connection with its buffers and the event that it is established: open, with nothing received or to be sent |
| FramingRuns.Meet | src/connector.cc:155-304 | so for every conversation between two new connections |
| ConMgr.IdsCollide | src/listener.cc:95-107 | two connections have the same id if and only if they are made in the same second (of 2^32) with a multiple of 2^32 connections made in between |
| ConMgr.SvrCon.constructor | src/listener.cc:95-107 | the id is the second and the counter |
| ConMgr.Manager.constructor | src/listener.cc:14-17 | a manager starts with nothing |
| ConMgr.Manager.Create | src/listener.cc:72-82 | the connection is live under its id, (second mod 2^32) * 2^32 + counter; one that it pushes out has the same id |
| ConMgr.Manager.PostDelConn | src/listener.cc:28-41 | the connection moves from the map to the end of the waiting ones; an unknown id changes nothing |
| ConMgr.Manager.FindConn | src/listener.cc:43-51 | the connection that is live under this id; null exactly if there is none, so never one that waits or was deleted |
| ConMgr.Manager.DisConnect | src/listener.cc:143-152 | the second post of a connection finds nothing: it waits exactly once, and the result is true exactly if the connection had no socket and was in the map |
| ConMgr.Manager.OnTimerDelConn | src/listener.cc:85-93 | everything that waits is deleted, in order, once |
| ConMgr.Manager.UserCode | src/listener.cc:54-82 | any sequence of creations, disconnections and posts by a callback keeps the invariant and deletes nothing |
| ConMgr.Manager.Foreach | src/listener.cc:54-70 | the callback gets every connection that was live when it began, once, and never a deleted one, whatever the callbacks do |
| ConMgr.Manager.ExactlyOnePlace | src/listener.cc:28-93 | in every reachable state each connection is in exactly one of map, waiting, deleted or lost, and DelConnect was called at most once for it; none is lost unless two ids collide |
| Tagging.IntFormat | External/libevent-2.1.8-stable/event_tagging.c:117-138 | the first byte holds the number of digits less one and the lowest digit, and each further byte the next two digits, the higher one in its low half |
| Tagging.TagFormat | External/libevent-2.1.8-stable/event_tagging.c:173-194 | seven bits a byte, lowest first; all bytes but the last one have the high bit set, and there are as few as possible |
| Tagging.IntRoundTrip | External/libevent-2.1.8-stable/event_tagging.c:117-138 | the nibble codec inverts for every number of up to 16 digits, whatever follows, and takes exactly the bytes it wrote |
| Tagging.DecodeIntBound | External/libevent-2.1.8-stable/event_tagging.c:315-350 | a decoded number has 32 bits with 8 digits allowed and 64 with 16 |
| Tagging.EncodeInternal | External/libevent-2.1.8-stable/event_tagging.c:117-138 | the loop writes exactly the bytes of the number and says how many |
| Tagging.TagRoundTrip | External/libevent-2.1.8-stable/event_tagging.c:173-242 | the tag codec inverts for every 32-bit tag, whatever precedes and follows |
| Tagging.EncodeTagInternal | External/libevent-2.1.8-stable/event_tagging.c:173-194 | the loop writes exactly the bytes of the tag, at most five |
| Tagging.DecodeTagLoop | External/libevent-2.1.8-stable/event_tagging.c:214-241 | the loop computes the specified decoding, with its limit of 32 bits |
| Tagging.RecordRoundTrip | External/libevent-2.1.8-stable/event_tagging.c:256-263 | every record of a 32-bit tag and a payload with a 32-bit length decodes to itself, whatever follows, and takes exactly its bytes |
| Tagging.StreamRoundTrip | External/libevent-2.1.8-stable/event_tagging.c:256-480 | every sequence of records with payloads below 2^31 bytes reads back as the same sequence |
| Tagging.PayloadRoundTrip | External/libevent-2.1.8-stable/event_tagging.c:276-350 | 32-bit and 64-bit numbers and pairs of 32-bit numbers in a payload decode to themselves |
| TaggingBuffer.EncodeTag | External/libevent-2.1.8-stable/event_tagging.c:173-194 | the bytes of the tag are appended, or nothing; with memory always |
| TaggingBuffer.EncodeInt | External/libevent-2.1.8-stable/event_tagging.c:152-158 | the bytes of the number are appended, or nothing; with memory always |
| TaggingBuffer.Marshal | External/libevent-2.1.8-stable/event_tagging.c:256-263 | the whole record, tag, length and payload, is appended when all three additions succeed, as they do with memory |
| TaggingBuffer.DecodeTag | External/libevent-2.1.8-stable/event_tagging.c:196-242 | the tag at the front, drained on demand; with memory -1 exactly if there is no valid tag |
| TaggingBuffer.DecodeIntAt | External/libevent-2.1.8-stable/event_tagging.c:361-366 | the number at an offset, nothing drained; with memory -1 exactly if there is no valid number |
| TaggingBuffer.DecodeIntDrain | External/libevent-2.1.8-stable/event_tagging.c:375-383 | the number at the front is drained with exactly its bytes; a failure changes nothing |
| TaggingBuffer.UnmarshalHeader | External/libevent-2.1.8-stable/event_tagging.c:437-451 | tag and length are drained and the payload follows; the result is the length as a signed number; with memory -1 exactly if there is no whole record (or the length is 2^32 - 1) |
| TaggingBuffer.Unmarshal | External/libevent-2.1.8-stable/event_tagging.c:466-480 | the payload moves to the other buffer and the record is gone; with memory this succeeds for every record below 2^31 bytes |
| TaggingBuffer.ConsumeRecord | External/libevent-2.1.8-stable/event_tagging.c:453-462 | the record is gone; a payload of 2^31 bytes or more takes the whole buffer with it |
| TaggingBuffer.MarshalInt | External/libevent-2.1.8-stable/event_tagging.c:276-285 | the record with the number as payload is appended |
| TaggingBuffer.UnmarshalInt | External/libevent-2.1.8-stable/event_tagging.c:484-508 | the number in the payload, the record drained; with memory every well-formed one is read |
| TaggingBuffer.MarshalTimeval | External/libevent-2.1.8-stable/event_tagging.c:306-313 | the record with the two numbers, reduced to 32 bits, is appended |
| TaggingBuffer.UnmarshalTimeval | External/libevent-2.1.8-stable/event_tagging.c:579-605 | the two numbers, the record drained; with memory every well-formed one is read |
| TaggingBuffer.MarshalAll | External/libevent-2.1.8-stable/event_tagging.c:256-263 | with memory records that are marshalled one after another are the stream of these records |
| TaggingBuffer.UnmarshalAll | External/libevent-2.1.8-stable/event_tagging.c:466-480 | unmarshalling until the buffer is empty returns exactly the records of the stream |
| TaggingBuffer.Transport | External/libevent-2.1.8-stable/event_tagging.c:256-480 | every sequence of records with payloads below 2^31 bytes goes through a buffer unchanged |
| Pair.Amount | External/libevent-2.1.8-stable/bufferevent_pair.c:162-176 | everything without a watermark; up to the watermark below it; at or above it nothing, or everything if it is to be ignored |
| Pair.End.constructor | External/libevent-2.1.8-stable/bufferevent_pair.c:92-112 | a new end has empty buffers, frozen where the other end works on them |
| Pair.TransferBuffers | External/libevent-2.1.8-stable/bufferevent_pair.c:152-192 | exactly the specified amount leaves the output and arrives in the input, in order, lossless when there is memory |
| Pair.Transfer | External/libevent-2.1.8-stable/bufferevent_pair.c:152-192 | the channel stays FIFO in both directions: bytes read ++ input ++ other output = bytes written; reading is suspended exactly while the input has reached the watermark; nothing that may go is left waiting |
| Pair.NewPair | External/libevent-2.1.8-stable/bufferevent_pair.c:114-150 | two ends that share nothing, both channels empty |
| Pair.Write | External/libevent-2.1.8-stable/bufferevent_pair.c:204-222 | what was written is queued, and exactly what the watermark leaves room for is handed over at once if both ends allow it; the channel stays FIFO |
| Pair.Read | External/libevent-2.1.8-stable/bufferevent.c:447-451 | exactly the first bytes of the input are taken, and below the watermark the other end hands over as much as there is room for |
| Pair.Remark | External/libevent-2.1.8-stable/bufferevent.c:117-131 | reading is suspended exactly while the input has reached the watermark; when it resumes, what waited and has room moves |
| Pair.PairEnable | External/libevent-2.1.8-stable/bufferevent_pair.c:224-250 | enabling moves exactly what may move, within the watermarks, and the channels stay FIFO |
| Pair.Enable | External/libevent-2.1.8-stable/bufferevent.c:459-480 | the flags are set, and exactly what may move then moves |
| Pair.Disable | External/libevent-2.1.8-stable/bufferevent.c:550-563 | disabling or suspending moves nothing |
| Pair.Resume | External/libevent-2.1.8-stable/bufferevent.c:78-88 | when the last reason is gone, what waited moves |
| Pair.SetWatermark | External/libevent-2.1.8-stable/bufferevent.c:569-615 | a new watermark suspends reading exactly if the input has reached it; otherwise what waited moves, as far as there is room |
| Pair.Flush | External/libevent-2.1.8-stable/bufferevent_pair.c:304-337 | everything moves if there is no watermark or it is reached already, otherwise as much as there is room for; the channels stay FIFO |
| Pair.Run | External/libevent-2.1.8-stable/bufferevent_pair.c:114-337 | every run of calls at either end keeps all this; with memory nothing is lost, and all that was given to be written is written |
| Pair.History | External/libevent-2.1.8-stable/bufferevent_pair.c:114-337 | from a new pair, with memory: in both directions bytes read ++ input ++ other output = bytes written, and no byte waits in an output while the other end would take it |

## Left out

Conditions on callers and claims that are weaker than one might expect:

- EvBufferTransfer.RemoveBuffer: requires that the transfer is safe (`TransferAllowed`), because otherwise the code breaks the invariant; `TransferExact` shows that the condition is exact, `CompactAllowed` that a source without gaps meets it, `SkippedChain` and `EmptyPrepend` how a gap comes about. That the result is cast to `int` is not modelled.
- EvBufferCommit.Commit: requires `CommitSafe` for the same reason; `CommitExact` shows that it is exact, reservations of two or more vectors always meet it (`ReservationCommits`), and so do new ones of one vector (`OneVecCommits`).
- EvBufferRuns.Run: three things that would leave a gap are not done: evbuffer_prepend_buffer in front of data while empty chains follow the data of its source (`PrependExact`; they can only where space was reserved, as `Looser` says), a commit that skips a vector (`SkippedChain`), and a commit of one vector behind an empty chain (`EmptyPrepend`); nor is a commit that does not follow its reservation. A line is only read from a buffer of at most 2^63 - 1 bytes.
- EvBufferSearch.PtrSet: a position is an unbounded number; that an `ev_ssize_t` wraps around above 2^63 - 1 is not modelled.
- EvBufferRead.ReserveSpace: takes sizes up to 2^63 - 1 as the type `ev_ssize_t` does; a negative size becomes a huge one as in the code.
- EvBufferRead.Read: the case without readv, and evbuffer_read on Windows, are not modelled; the limits of the two calls of the kernel are parameters.
- EvBufferSearch.SearchRange: requires that the buffer holds at most 2^63 - 1 bytes, the largest `ev_ssize_t`; so do EvBufferLines.SearchEol and EvBufferLines.Readln.
- EvBufferLines.Strspn: the position it leaves behind is not modelled, because its only caller ignores it.
- DnsNames.DnsnameToLabels: requires one byte behind the limit, because the code writes the final zero without looking at the limit.
- DnsNames.EncodeNames: the round trip is for offsets below 0x4000, where pointers can be written; larger offsets are not checked by the code.
- DnsRequests.TransactionIdPick: a number that was drawn before is not drawn again, so that the loop ends; requires fewer than 65535 requests in flight, otherwise the code loops for ever. The limit on requests in flight ensures it, except for probes.
- TokenBucket.Bucket.Update: requires limits that are not above the maximum; `RefillExact` says exactly when the code is right without this, `RefillAboveMaximum` shows that it is needed.
- RateLimit.Bev.DecrementOwn: a negative decrement must not push a limit above its maximum, for the same reason; so for RateLimit.Bev.DecrementLimit, RateLimit.DecrementBuckets and RateLimit.GroupDecrement. Adding the refill timer is taken to succeed; when it fails a direction stays suspended with nothing to resume it.
- RateLimitSpec.LineThroughput: while the configuration of the bufferevent stays the same and nobody puts tokens into its bucket with a negative decrement (`Harmless`).
- RateLimitSpec.GroupThroughput: for a group whose configuration and minimum share stay the same and into whose bucket nobody puts tokens with a negative decrement (`Steady`); groups whose minimum share was set to 0 are excluded, because they can be left unsuspended with an empty bucket.
- RateLimitRuns.Do: a call that would make a limit wrap around, or push it above its maximum, is not made.
- RateLimit.GroupShare: the branch for a bufferevent that another thread held while its group was suspended is there, but cannot be reached in a single thread.
- EventBase.Base.Add: the map from a duration to its common list is a parameter; what a persistent event remembers in `ev_io_timeout`, to be added again when it is dispatched, is not modelled. Whether the facts hold afterwards depends on the memory for the heap (`Strands`).
- EventBaseRuns.Iterate: an iteration stands for as many rounds of event_base_loop as it takes until no event is active, at one time and with no file ready in between; the callbacks of the users call nothing meanwhile, whereas in a history they may call anything between the dispatches.
- EventBaseSpec.NotLost: says nothing of an event that waits while it is in a queue: an event that is active already, and not persistent, gives up its timeout when its callback runs.
- EventBase.Base.NewCommonTimeout: a duration is given without magic bits.
- EventBase.Base.Dispatch: one callback of a queue; what the callback of the user does afterwards are further calls. The limits of the loop (`max_to_process`, priorities, `event_break`) are not modelled.
- DnsResolver.Resolver.RequestSubmit: requires an id that no request in flight has, as a new request from RequestNew has it.
- DnsResolver.Resolver.RequestFindFromTransId: that no two requests in flight have the same id holds in the model, but not with search suffixes, which are left out: search_try_next (evdns.c:3256) picks an id for the next name, then calls request_finished, which pumps the waiting queue and may give the same id to another request, and only then submits the new one.
- DnsResolver.Resolver.Transmit: what comes of a transmission is a parameter, here and in Pump; that a server is choked is part of it, not of the state.
- ConMgr.Manager.Create: a connection that an equal id pushes out of the map is counted as lost; ids are equal exactly as `IdsCollide` says.
- ConMgr.Manager.UserCode: callbacks may do anything but run the timer; destructors that call the manager are not modelled.
- Framing.ConCom.OnReadable: the connection's own watermarks and rate limits are not part of it.
- Framing.ConCom.OnRecv: the user's code may send on the same connection and close it, but not open it again from OnDisconnected before OnRecv returns.
- Framing.ConCom.OnEvent: what the user's code does in OnConnected and OnError is not part of it.
- FramingRuns.DoCarry: errors of writing to the socket are not modelled.
- TaggingBuffer.DecodeTag: the byte behind five that the loop of the code reads before it fails is not modelled; the result is the same.
- TaggingBuffer.DecodeIntAt: without memory, and at an offset that is not 0, the code goes on with a bad address; the model fails.
- TaggingBuffer.Unmarshal: without memory for the payload the code copies from a null pointer; the model fails.
- TaggingBuffer.ConsumeRecord: what a payload of 2^31 bytes or more does is stated for buffers below half the address space only.
- Pair.Transfer: losslessness needs memory; without it bytes are lost as the code loses them, and `lossy` says so. That the watermark callback then transfers again, from within the transfer, is not modelled.
- Pair.Write: bufferevent_write_buffer, which could bring chains with a gap into the output, is not modelled.

What the repository does and the model does not:

- Threads, locks, condition variables, pinned chains and the completion-port back end.
- Multicast, reference and file-segment chains, sendfile, and evbuffer callbacks, which are taken to run after the operation that queued them.
- Memory that was freed is not tracked; only that nothing reaches it through the buffer any more.
- The heap, the map of file descriptors, the change list and the back ends of event.c: a set of pending timeouts, the length of its array, and an arbitrary answer of the map.
- Signals, `event_once`, `event_base_loop` itself, reinitialization and monitoring.
- Of evdns.c: parsing of replies, search suffixes, probes, retransmission timers, `evdns_base_clear_nameservers_and_suspend`, hosts files and getaddrinfo.
- Filter and OpenSSL bufferevents, timeouts of bufferevents, the destruction of pairs and groups.
- The HTTP wrapper, timers, logging, standard input and the raw mode of the read callback of connector.cc.
- `evtag_unmarshal_fixed`, `evtag_unmarshal_string` and the peek functions, which add nothing to `UnmarshalHeader`.
