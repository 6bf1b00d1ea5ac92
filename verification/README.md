# NVMeVirt storage emulator: a verified model

NVMeVirt is a kernel module that emulates an NVMe drive in memory, and this tree adds to it a
coalescing middle layer that gathers small feature-row reads from GPU threads into page reads. The
model covers the parts of it whose correctness is spread over many functions.

* **Page-mapped flash translation layer** (`Geometry`, `PriorityQueue`, `FtlState`, `FtlSteps`, `FtlGc`,
  `FtlGcLoop`, `FtlInstance`, `FtlFill`, `ConvNamespace`, `ConvRead`). A mapping table, a reverse table, page,
  block and line counts, two mixed-radix write pointers, a victim heap with back pointers and a credit
  scheme. Against a plain map from logical page to data, every write replaces one entry and every
  collection changes none. The arithmetic that keeps free lines from running out is an invariant:
  pages left to program, less the credits handed out, stay at least two lines and two pages.
* **Coalescing middle layer** (`CoPools`, `CoState`, `CoSteps`, `CoSort`, `CoCount`, `CoFanout`,
  `Coalesce`, `CoBackend`). Requests pass from a ring through a window or buckets, a sort, issue under
  credits, asynchronous completion, timeout or refusal, fan-out, and back to the free pools. The
  environment may complete, repeat, delay or drop reads, and may present any cookie at any time. Every
  request popped is delivered exactly once, under its own identity and with its own row, and the
  consumer comes to rest: whatever the schedule of arrivals, answers, consumption and laps, the quiet
  laps that still find work are bounded by the work there was and the requests that came, and after
  that many the ring and all pools are empty.
* **Queues and schedulers** (`MpscRing`, `DirectQp`, `ChannelModel`, `IoWorkList`, `Zns`). The
  many-producer request ring as interleaved steps, the host-owned NVMe queue pair against any device
  that fetches in order and completes out of order (sections 4.1 and 4.6 of the NVM Express Base
  Specification 1.4), the lazily reset bandwidth ledger, the index-linked work list, and the zone state
  machine (section 2.1.1 of the NVMe Zoned Namespace Command Set Specification 1.1a).

Code that updates records and arrays in place is written as classes whose methods change the same
fields. Beside each class stands the value it represents (a ghost `View`, `PoolV` or `WinV`); a method
is proved to take that value through a named step, and lemmas prove what each step keeps. `Radix`
holds the arithmetic all of them share, `Collections` sets and lists of numbers, `Wrappers` the optional
value.

## Where the code meets its promises only under a condition

Each of these is stated as an equivalence, or as a proof and a concrete input that fails without the
condition.

* In every run of the owned queue pair the poll takes an entry for new exactly when it is, if and only if
  the queue has fewer than 65536 entries: at 65536 the 16-bit head wraps by itself, the phase no longer
  flips, and once 65536 reads have gone round one at a time the completion of the first is accepted again
  (`DirectQp.PollExactly`, `DirectQp.HeadFollows`, `DirectQp.HeadStuck`, `DirectQp.QueuePair.StaleAccepted`).
  A staging depth of 65536 on a controller that allows it reaches the limit.
* The request ring needs two entries. With one, the published mark of a position is the next producer's
  turn (`MpscRing.OneEntryOverwrites`). The parameter is rounded up to a power of two, and one is a
  power of two.
* A gather descriptor carries the whole row exactly when a row is shorter than 64 KB, and the request's
  identity exactly when it fits 32 bits (`CoState.LenExact`, `CoState.IdExact`).
* In the hash mode the window is counted but not sorted, so the reads made equal the pages counted
  exactly when no page reappears after another (`CoCount.RunsAndPages`).
* The transfer time of the bandwidth model is a 32-bit product (`ChannelModel.UntouchedFinish`), its
  byte-wide credits fit exactly the bandwidths from 31 to 7812 MiB/s (`ChannelModel.CreditsFit`), and an
  idle gap is followed exactly when its 32-bit truncation still covers what was granted
  (`ChannelModel.GapExactly`). A request is charged to its own interval exactly while it is less than 2^32
  intervals ahead (`ChannelModel.AheadExactly`).
* A bucket is copied into the window unchecked. With an age limit and an open window, every bucket emptied
  in any history of laps fits the window exactly when the bucket capacity does not exceed the ring
  (`CoBuckets.BurstsFitExactly`). With the default age limit, window and bucket bits, a ring of 1024 and
  buckets of 4096, five laps of requests for one row overrun it four times over (`CoBuckets.BurstOverruns`).
  With an age limit of zero the condition is enough but not needed: a window of one never gathers a bucket of
  two (`CoBuckets.CapacityFits`, `CoBuckets.AgedAtOnce`).
* Writes are let in by the size of the mapping table, not by the exported size. On a device of at least 11
  lines of at least 6 pages, a host can write for ever exactly when it keeps no more logical pages stored than
  all but four lines hold, however the victim queue breaks its ties (`FtlRunOut.NeverRunsOutExactly`); with
  one page more a run of writes is built, for every such device, after which a write pointer finds no free line
  (`FtlRunOut.RunsOut`). Up to that number a write goes through on every device (`FtlRunOut.KeepsWriting`,
  `FtlInstance.ConvFtl.WritePage`). At exactly that number a collection may find no victim, and none is needed
  then (`FtlFill.CollectsExactly`, `FtlFill.NoVictim`, `FtlGc.NothingInvalid`). Pages written once each can be
  written to the end exactly while they do not use up all lines but one; at that point no line is free and no
  page is invalid (`FtlFill.FirstWritesFit`, `FtlFill.OutOfLines`). A host that stays within the exported range
  stays below the limit, with the rounding of the parameter setup counted in (`ConvNamespace.ExportFits`,
  `ConvNamespace.WithinExport`), so every run of such a host is served (`ConvHost.ServeHost`).
* Seven per cent over-provisioning leaves collection its four spare lines, for every line size, exactly
  from 62 lines on (`ConvNamespace.SpareLines`, `ConvNamespace.TooFewLines`).

Where comment and code differ the code is followed: `coalesce_backend.h` line 43 describes the cookie as
shard and slot only, while the code also carries the generation.

## Model

| member | source | states |
|---|---|---|
| Geometry.InitParamsGeometry | control/nvmevirt/ssd.c:68-170 | for every accepted configuration the parameters computed field by field satisfy the size identities the write pointer and the collection loops divide by |
| Geometry.ParametersAre | control/nvmevirt/ssd.c:68-170 | flash page and program unit are so many mapping units, the channels are shared out, a block takes the fewest program units that cover it, and blocks are as small, or as few, as hold the partition's share |
| Geometry.PgIdxInjective | control/nvmevirt/conv_ftl.c:37-51 | the page index is below the total page count and different addresses have different indices, so the reverse table never mixes two pages |
| Geometry.VisitPosInjective | control/nvmevirt/conv_ftl.c:215-298 | the visiting order of a line gives different pages different positions below the line size |
| Geometry.VisitStripes | control/nvmevirt/conv_ftl.c:215-281 | successive program units go to successive channels, then to the next LUN of each, then to the next wordline |
| Geometry.NextCoordVisits | control/nvmevirt/conv_ftl.c:215-281 | the write pointer's coordinate step moves to exactly the next visiting position and reports the line used up exactly after the last one |
| PriorityQueue.RootLeast | control/nvmevirt/pqueue/pqueue.c:156-180 | the first element of a heap is of least priority among all |
| PriorityQueue.IsValidExact | control/nvmevirt/pqueue/pqueue.c:225-247 | the recursive validity check succeeds exactly on heap-ordered arrays, the empty queue among them |
| PriorityQueue.PQueue.Insert | control/nvmevirt/pqueue/pqueue.c:104-129 | the element joins the members; heap order and every back pointer hold after it |
| PriorityQueue.PQueue.ChangePriority | control/nvmevirt/pqueue/pqueue.c:131-142 | the members stay, the one priority changes, heap order and back pointers hold |
| PriorityQueue.PQueue.Pop | control/nvmevirt/pqueue/pqueue.c:156-168 | the popped element was a member of least priority and is the only one to leave |
| FtlSteps.InvalidateKeeps | control/nvmevirt/conv_ftl.c:488-533 | a mapped page is valid, and invalidating it keeps maps, counts, line membership and queue, full line to victim included |
| FtlSteps.NewPageIsFree | control/nvmevirt/conv_ftl.c:283-298 | the page either write pointer names is free and outside the line being collected, so no page is programmed twice between erases |
| FtlSteps.ProgramKeeps | control/nvmevirt/conv_ftl.c:535-556 | programming keeps the whole invariant and advances only its own pointer's fill |
| FtlSteps.ProgramContents | control/nvmevirt/conv_ftl.c:971-1013 | programming changes the data of exactly one logical page |
| FtlSteps.AdvanceKeeps | control/nvmevirt/conv_ftl.c:215-281 | closing a line onto the full list or the victim queue and opening a free one keeps the invariant and the pages left |
| FtlGc.VictimExists | control/nvmevirt/conv_ftl.c:645-666 | with at most two free lines and fewer logical pages stored, wherever they lie, than all but four lines hold, some closed line holds an invalid page |
| FtlGc.NothingInvalid | control/nvmevirt/conv_ftl.c:645-666 | with at most two free lines, as many pages stored as all but four lines hold and nothing to collect, exactly two lines are free and the line being written holds no valid page |
| FtlGc.CopyStep | control/nvmevirt/conv_ftl.c:598-643 | copying one valid page keeps the contents and uses up one page of the reserve, though the old reverse entry goes stale |
| FtlGc.FreeLineLeft | control/nvmevirt/conv_ftl.c:154-182 | while a collection runs that began with two lines in reserve, the collector always finds a free line to open |
| FtlGc.EraseStep | control/nvmevirt/conv_ftl.c:558-577 | a block is erased only after its valid pages were copied, and nothing mapped lies on it |
| FtlGc.FinishCollection | control/nvmevirt/conv_ftl.c:742-813 | a finished collection leaves the contents as they were and the reserve larger by the invalid pages of the victim |
| FtlGc.RefillKeepsReserve | control/nvmevirt/conv_ftl.c:93-108 | with more than two free lines a refill of up to a line of credits keeps two lines in reserve beside them |
| FtlGcLoop.LoopsCover | control/nvmevirt/conv_ftl.c:772-807 | the nested collection loops reach every page of the victim before the line is freed |
| FtlInstance.ConvFtl.constructor | control/nvmevirt/conv_ftl.c:110-146 | a new instance is the initial state, satisfies the invariant and stores nothing |
| FtlInstance.ConvFtl.MarkPageInvalid | control/nvmevirt/conv_ftl.c:488-533 | the in-place update is the invalidation step, victim queue positions included |
| FtlInstance.ConvFtl.SelectVictimLine | control/nvmevirt/conv_ftl.c:645-666 | the victim is a queued line with fewest valid pages, refused only as the threshold says |
| FtlInstance.ConvFtl.AdvanceWritePointer | control/nvmevirt/conv_ftl.c:215-281 | the in-place update is the advance step |
| FtlInstance.ConvFtl.CleanOneFlashpg | control/nvmevirt/conv_ftl.c:693-740 | exactly the valid pages of the flash page are copied, each once, ending in the state of the same loop as a function |
| FtlInstance.ConvFtl.DoGc | control/nvmevirt/conv_ftl.c:753-813 | a collection changes no logical page and gains between one page and a line of reserve, its new state being that of the collection as a function of the state before and the least queued line; without a victim nothing changes |
| FtlInstance.ConvFtl.ForegroundGc | control/nvmevirt/conv_ftl.c:815-822 | at or below the threshold a collection is made: below all but four lines of stored pages it always finds a victim; at exactly that number it may find none, and then nothing changes and two lines stay in reserve after the refill; above the threshold nothing changes |
| FtlInstance.ConvFtl.ProgramUserPage | control/nvmevirt/conv_ftl.c:971-1007 | the user page is programmed at the write pointer, which moves on; the line left open has just been opened or holds a valid page |
| FtlInstance.ConvFtl.WritePage | control/nvmevirt/conv_ftl.c:971-1013 | one write of any page of the mapping table replaces exactly that entry of the stored map and never lacks a free line or a credit, as long as at most as many pages as all but four lines hold are kept stored; the whole new state is that of the write as a function, which `FtlHost` and `FtlRunOut` reason about |
| FtlFill.NoVictim | control/nvmevirt/conv_ftl.c:645-666 | all but four lines of pages written once each leave two free lines and nothing to collect |
| FtlFill.CollectsExactly | control/nvmevirt/conv_ftl.c:815-822 | a collection that is due always finds a victim if and only if fewer pages are kept stored than all but four lines hold |
| FtlFill.OutOfLines | control/nvmevirt/conv_ftl.c:168-182 | first writes to all lines but one end with no free line and no invalid page |
| FtlFill.FirstWritesFit | control/nvmevirt/conv_ftl.c:961-1013 | pages written once each can all be written if and only if they do not use up all lines but one |
| FtlHost.HostTally | control/nvmevirt/conv_ftl.c:753-822 | a whole write, collection included, does to the lines exactly what a count of valid pages per line says: it runs out of a free line when the count does, and otherwise ends with that count |
| FtlRunOut.KeepsWriting | control/nvmevirt/conv_ftl.c:971-1013 | any run of writes that keeps at most as many pages stored as all but four lines hold goes through |
| FtlRunOut.RunsOut | control/nvmevirt/conv_ftl.c:168-182 | for every device of at least 11 lines of at least 6 pages and every tie-breaking of the queue, a run that keeps one page more stored ends with a write pointer that finds no free line |
| FtlRunOut.NeverRunsOutExactly | control/nvmevirt/conv_ftl.c:93-108 | on every device of at least 11 lines of at least 6 pages, no run of writes keeping a given number of pages stored ever lacks a free line, if and only if all but four lines hold that many |
| ConvNamespace.StoreAllLookup | control/nvmevirt/conv_ftl.c:925-1013 | a range write over striped instances replaces exactly the pages of the range |
| ConvNamespace.ConvWrite | control/nvmevirt/conv_ftl.c:925-1025 | the command is refused with nothing changed, or every instance ends with the stored range, wherever in the mapping tables it lies, as long as no instance keeps more pages than all but four of its lines hold |
| ConvNamespace.ExportFits | control/nvmevirt/ssd.c:68-170 | from 91 lines on, or 62 with 35 pages each, the exported share of an instance is below all but four of its lines, with every rounding of the parameter setup counted in |
| ConvNamespace.WithinExport | control/nvmevirt/conv_ftl.c:367-420 | a host that stays within the exported range never makes an instance store more than that share |
| ConvNamespace.SpareLines | control/nvmevirt/conv_ftl.c:367-420 | seven per cent over-provisioning leaves four spare lines from 62 lines on |
| ConvNamespace.TooFewLines | control/nvmevirt/conv_ftl.c:367-420 | below 62 lines there is a line size for which the share reaches into the last four |
| ConvHost.InitNamespace | control/nvmevirt/conv_ftl.c:376-420 | fresh instances that share no memory and store nothing, with the parameters computed for the size, each able to hold its exported share |
| ConvHost.ServedLookup | control/nvmevirt/conv_ftl.c:925-1013 | after any run of commands a page holds what the last command that was let in and covered it sent |
| ConvHost.ServeHost | control/nvmevirt/conv_ftl.c:925-1025 | from a new namespace on, every run of write commands within the exported range is served, each command unless the write buffer has no room for it, and ends with every page as last written |
| ConvRead.VisitsOnce | control/nvmevirt/conv_ftl.c:873-918 | the instance-by-instance strides visit each page of the range exactly once and no other |
| ConvRead.ReadPart | control/nvmevirt/conv_ftl.c:873-918 | the reads issued for one instance serve its mapped pages in order, each read within one flash page and no two successive ones in the same |
| ConvRead.BytesServed | control/nvmevirt/conv_ftl.c:824-918 | the transfer sizes add up to the page size times the mapped pages |
| ConvRead.ConvRead | control/nvmevirt/conv_ftl.c:833-923 | the whole command's reads serve exactly the mapped pages of the range, in visiting order, transfer exactly their bytes, and never read one flash page twice in a row |
| ConvRead.GroupsMaximal | control/nvmevirt/conv_ftl.c:873-918 | no page of one read lies in the flash page of the instance's next read: the groups are the longest runs of mapped pages in one flash page |
| ConvRead.SamePageIs | control/nvmevirt/conv_ftl.c:824-831 | two pages are in one flash page exactly when they differ at most in the page number and their aligned groups of pgsPerFlash pages start at the same page |
| CoPools.GsEqual | control/nvmevirt/coalesce.c:215-219 | two state words are equal exactly when generation and state are, so one compare-and-swap checks both |
| CoPools.CookieRoundTrip | control/nvmevirt/coalesce_backend.h:82-86 | a cookie names its shard, slot and generation |
| CoPools.PushKeeps | control/nvmevirt/coalesce.c:460-469 | taking a waiter leaves every node on the free list or on exactly one page's acyclic chain |
| CoPools.PopKeeps | control/nvmevirt/coalesce.c:472-482 | freeing a chain node by node keeps that partition |
| CoPools.ArmKeeps | control/nvmevirt/coalesce.c:427-448 | arming bumps the generation and keeps free, issued, done, held and returned slots a partition |
| CoPools.AcceptsExactly | control/nvmevirt/coalesce.c:493-517 | a completion of one use arriving in a later one takes effect exactly when the slot is issued and the uses agree modulo 65536 |
| CoPools.StaleIgnored | control/nvmevirt/coalesce.c:493-517 | it is ignored while the slot has been rearmed fewer than 65536 times since |
| CoState.RowInPage | control/nvmevirt/coalesce.c:973-985 | a row never straddles a page: it is the staged page's bytes at the row's offset |
| CoState.DeliverRight | control/nvmevirt/coalesce.c:553-567 | a waiter of a page read without error is told 0 and given its whole row, byte for byte, where its destination is mapped, and 2 and nothing where it is not; a waiter of a page that failed is told the error |
| CoState.Told | control/nvmevirt/coalesce.c:387-414 | of every delivery made so far: its own destination, its own identity (below 32 bits in a descriptor), status 1 or that of its destination, and with status 0 and somewhere to go exactly the bytes of its row (below 64 KB in a descriptor) |
| CoState.LenExact | control/nvmevirt/coalesce.c:387-399 | a descriptor's 16-bit length is the row exactly when the row is shorter than 64 KB |
| CoState.IdExact | control/nvmevirt/coalesce.c:387-399 | its 32-bit identity is the request's exactly when that fits |
| CoState.GpuAppend | control/nvmevirt/coalesce.c:387-414 | publishing a descriptor of the page being reaped keeps every unconsumed descriptor pointing at intact staging |
| CoState.GpuHold | control/nvmevirt/coalesce.c:591-597 | a page held behind a watermark at the head covers all its descriptors |
| CoState.GpuRelease | control/nvmevirt/coalesce.c:607-625 | a page whose watermark the tail has reached has no unconsumed descriptor |
| CoState.ReachedExact | control/nvmevirt/coalesce.c:607-625 | the wrapped comparison of cursors is the real one within 2^31 |
| CoSteps.AddPoolKeeps | control/nvmevirt/coalesce.c:724-738 | a waiter added to the slot being built stands for its request and disturbs no other slot |
| CoSteps.AcceptPoolKeeps | control/nvmevirt/backend_model.c:49-58 | an accepted DRAM read has its page staged and owes exactly the requests of its run |
| CoSteps.ReapPoolKeeps | control/nvmevirt/coalesce.c:574-602 | a delivered page leaves the done list owing nothing |
| CoSort.RadixSorts | control/nvmevirt/coalesce.c:283-305 | four stable passes sort by page, permute the window and keep the order within each page, because a row divides a page |
| CoSort.RadixByPage | control/nvmevirt/coalesce.c:283-305 | the in-place passes between two buffers compute those four passes and end in the first buffer |
| CoCount.CountAdjacent | control/nvmevirt/coalesce.c:307-318 | counts the maximal runs of equal pages |
| CoCount.HashUnique | control/nvmevirt/coalesce.c:320-339 | linear probing ends and counts exactly the distinct pages |
| CoCount.RunsAndPages | control/nvmevirt/coalesce.c:307-339 | distinct pages never exceed runs and equal them exactly when no page reappears |
| CoCount.RunsStep | control/nvmevirt/coalesce.c:701-713 | passing one maximal run counts one, wherever issue was interrupted |
| CoFanout.AllFree | control/nvmevirt/coalesce.c:715-716 | with every slot free every waiter is free |
| CoFanout.AllReleased | control/nvmevirt/coalesce.c:607-625 | once the tail has reached the head a reclaim hands back every page held, while less than 2^31 was published since the oldest watermark, which `Coalesce.Shard.Lap` keeps |
| CoFanout.OwedFits | control/nvmevirt/coalesce.c:460-482 | the requests owed by all slots together never exceed the waiters there are |
| CoFanout.Pools.constructor | control/nvmevirt/coalesce.c:1321-1368 | freshly allocated pools are sound, every slot and waiter free |
| CoFanout.Pools.ArmSlot | control/nvmevirt/coalesce.c:427-448 | the armed slot comes off the free stack with the page and the time it was armed, is empty, owes nothing; no other slot and no live descriptor is affected |
| CoFanout.Pools.DeliverRow | control/nvmevirt/coalesce.c:553-567 | one waiter is delivered: read without error and mapped, it gets status 0 and the bytes of its row; unmapped, 2 and nothing; failed, the error; never past the ring's room |
| CoFanout.Pools.DeliverChain | control/nvmevirt/coalesce.c:583-589 | every waiter of the chain is delivered once, in chain order, under that status |
| CoFanout.Pools.ReapOne | control/nvmevirt/coalesce.c:574-602 | a page completed is delivered as completed and a page failed as failed; its requests move from owed to delivered |
| CoFanout.Pools.BackendDone | control/nvmevirt/coalesce.c:493-517 | any cookie at any time: it takes effect exactly when it names a slot of this shard in its current use at the backend, which it marks done, or failed for a nonzero status, leaving every other slot alone; otherwise it changes nothing |
| CoFanout.Pools.TimeoutScan | control/nvmevirt/coalesce.c:523-549 | a sweep throttled or switched off changes nothing; any other moves to the done list, failed, exactly the slots that have been at the backend for the timeout, and leaves every other slot its place and its record |
| CoFanout.Pools.Reap | control/nvmevirt/coalesce.c:574-602 | all finished pages are delivered, each request told that its own page was read or that it failed; slots that were not finished are left alone; at most as many descriptors as there are waiters; delivered plus owed requests stay the same |
| CoFanout.Pools.Consume | control/nvmevirt/coalesce.c:387-414 | every success descriptor the GPU consumes still finds its row in staging |
| CoFanout.Pools.GpuReclaim | control/nvmevirt/coalesce.c:607-625 | exactly the pages whose watermark is reached are handed back, the others staying in order; what stays held is ahead of the tail |
| CoFanout.Pools.DrainReturns | control/nvmevirt/coalesce.c:629-641 | all returned slots and their waiters are free again |
| CoFanout.Pools.IssueRun | control/nvmevirt/coalesce.c:701-776 | accepted, a free slot is with the backend for the run's page from this time on, owing exactly its requests; served at once or refused, they are delivered, a refusal with an error to each; put off, nothing moves; no slot in use is touched |
| Coalesce.TakeKeeps | control/nvmevirt/coalesce.c:973-987 | a request popped into the window keeps every request accounted for |
| Coalesce.AdvanceKeeps | control/nvmevirt/coalesce.c:701-783 | a passed run leaves the window and counts one read |
| Coalesce.ChargeKeeps | control/nvmevirt/coalesce.c:785-801 | charging a finished window keeps requests equal to pages plus merges, and reads equal to pages in a sorted mode |
| Coalesce.EvictKeeps | control/nvmevirt/coalesce.c:833-855 | an evicted bucket's requests become the sorted window, none lost |
| Coalesce.BinKeeps | control/nvmevirt/coalesce.c:887-924 | a request binned goes to the bucket of its page |
| CoBuckets.BucketsInTurn | control/nvmevirt/coalesce.c:824-829 | pages take the buckets in turn, as many to a bucket as the shift says |
| CoBuckets.BinOneIs | control/nvmevirt/coalesce.c:887-924 | a request goes behind those in its page's bucket, none lost or reordered, and a bucket is emptied first exactly when it is full |
| CoBuckets.QuietEvictIs | control/nvmevirt/coalesce.c:926-943 | a bucket is emptied exactly when the requests binned have aged, or the ring is empty and a bucket holds the flush minimum; it is one of the fullest, and the others stay |
| CoBuckets.CapacityFits | control/nvmevirt/coalesce.c:872-946 | a bucket capacity within the ring keeps every bucket emptied in any history of laps within the window |
| CoBuckets.BurstsFitExactly | control/nvmevirt/coalesce.c:872-946 | with an age limit and an open window, every bucket emptied in every history of laps, with its clock, arrivals and flush rule, fits the window if and only if the bucket capacity does not exceed the ring |
| CoBuckets.BurstOverruns | control/nvmevirt/coalesce.c:872-946 | default age limit, window and bucket bits, ring 1024, capacity 4096: a fifth lap of requests for one row, the ring never empty, empties a bucket four times the window |
| CoBuckets.AgedAtOnce | control/nvmevirt/coalesce.c:926-941 | with no age limit and a window of one, no bucket emptied is longer than one, whatever the capacity |
| Coalesce.Shard.TakeIntoBucket | control/nvmevirt/coalesce.c:888-922 | one popped request joins its bucket, a full bucket being evicted first: the step of those histories; only a bucket it evicts must fit the window |
| Coalesce.Shard.constructor | control/nvmevirt/coalesce.c:1370-1376 | a new shard satisfies the invariant with nothing popped |
| Coalesce.Shard.Seal | control/nvmevirt/coalesce.c:644-667 | in each mode the window is rearranged, its distinct pages counted, nothing lost |
| Coalesce.Shard.IssueNext | control/nvmevirt/coalesce.c:701-783 | the longest run at the front goes exactly when there is a slot and a waiter for each request and the backend is not full; stopping for credit means a read is outstanding that will return it; no delivery is taken back, and at most the requests passed are delivered |
| Coalesce.Shard.FlushIssue | control/nvmevirt/coalesce.c:701-802 | a window is issued over any number of laps, stopping only for a full backend or for want of credit for the next run, taking no delivery back, and charged exactly when its end is reached; with every slot free and a backend with room something is issued |
| Coalesce.Shard.Evict | control/nvmevirt/coalesce.c:833-855 | exactly that bucket, which fits the window, is emptied into the sealed window |
| Coalesce.Shard.Fullest | control/nvmevirt/coalesce.c:858-869 | the first of the fullest buckets, or none exactly when all are empty |
| Coalesce.Shard.BucketLap | control/nvmevirt/coalesce.c:872-946 | a lap in bucket mode does to the buckets what a lap of those histories does, pops a prefix of the ring in order, keeps the invariant and takes no delivery back; only the bucket it evicts must fit the window |
| Coalesce.Shard.IssueLap | control/nvmevirt/coalesce.c:961-1005 | a lap of the issuer pops a prefix of the ring in order, each request becoming the entry of its page, keeps the invariant and takes no delivery back; outside bucket mode window and ring end just as filling, sealing and issuing say; what is left of a sealed window lacks credit, if the backend has room; with every slot free, the requests aged and room at the backend, something that waits moves on |
| Coalesce.Shard.ReaperLap | control/nvmevirt/coalesce.c:950-958 | a lap of the reaper leaves nothing finished undelivered, keeps the invariant and takes no delivery back; a read neither answered nor overdue is still at the backend, and what is delivered succeeds exactly when its page was finished without an error before the lap; once every read has completed or timed out nothing is with the backend |
| Coalesce.Shard.Lap | control/nvmevirt/coalesce.c:1026-1046 | over any number of laps no page stays held whose descriptors the GPU had consumed when the lap began, and none at all once it has consumed everything published; no lap takes the shard farther from idle, and a quiet one, with room at the backend, takes it nearer |
| Coalesce.Shard.RunDry | control/nvmevirt/coalesce.c:1026-1046 | for every schedule of arrivals, answers (any cookie, any number of times), consumption and laps: deliveries are only added; the quiet laps that find work are at most the work at the start and six for each request that came; after as many with none coming the shard is idle, the ring empty, and everything popped or in the ring delivered once. Where reads time out, the lap after a pause is one of them |
| Coalesce.Shard.Completion | control/nvmevirt/coalesce.c:493-517 | any completion keeps the invariant, finishes or fails just the slot it names in its current use at the backend and nothing else, leaves the deliveries as they are and takes the shard no farther from idle |
| Coalesce.Shard.IdleDelivered | control/nvmevirt/coalesce.c:810-815 | once idle, the requests delivered are exactly the requests popped, each once, each told what `CoState.Told` says, its row byte for byte with status 0, and all are charged |
| Coalesce.IdleShard | control/nvmevirt/coalesce.c:810-815 | with window and buckets empty, what was popped is what is served, and all of it is charged |
| Coalesce.PoppedMore | control/nvmevirt/coalesce.c:972-987 | popping one more request extends the popped prefix of the ring by its entry |
| Coalesce.Shard.FillWindow | control/nvmevirt/coalesce.c:971-1002 | requests are popped in order until the window is full or the ring empty, and it is sealed exactly when it is full, has aged, or the ring is empty and it holds the flush minimum |
| Coalesce.Shard.WindowLap | control/nvmevirt/coalesce.c:971-1004 | outside bucket mode a sealed window takes nothing in; another is filled, and issued if that seals it, as far as credit and the backend go |
| Coalesce.Shard.NeverTwice | control/nvmevirt/coalesce.c:574-602 | at no time has a request been delivered more often than it was popped |
| Coalesce.Shard.ReadsArePages | control/nvmevirt/coalesce.c:785-801 | requests charged are pages plus merges, and in a sorted mode the reads made are the distinct pages |
| CoBackend.MapInjective | control/nvmevirt/coalesce.c:674-689 | different pages lie at different device places |
| CoBackend.MapInverse | control/nvmevirt/coalesce.c:674-689 | on real devices the pages are dealt out in turn, device and place giving the page number back; otherwise the namespace's own device at the same offset |
| CoBackend.WindowPush | control/nvmevirt/backend_model.c:120-140 | a write at the tail of a ring with room appends and overwrites nothing pending |
| CoBackend.PrefixIsAllDue | control/nvmevirt/backend_model.c:142-160 | with constant latency the due prefix is everything due |
| CoBackend.TimerRing.IssueRead | control/nvmevirt/backend_model.c:120-140 | refused without a ring for its shard or without a mapped namespace, put off exactly when the ring is full, otherwise queued last |
| CoBackend.TimerRing.Poll | control/nvmevirt/backend_model.c:142-172 | takes off exactly the due prefix, in issue order, and reports, fails or drops each as its roll says |
| CoBackend.NoFaults | control/nvmevirt/backend_model.c:159-170 | without fault injection every completion due is reported once, as a success |
| CoBackend.FaultsOnly | control/nvmevirt/backend_model.c:159-170 | with it, what is reported and what rolled below the drop rate are together exactly what was due |
| CoBackend.FaultsAre | control/nvmevirt/backend_model.c:159-170 | the completions that did not roll below the drop rate are reported in order, each failed exactly when its roll lies below the two rates added in 32 bits |
| CoBackend.CompletionRing.TryPush | control/nvmevirt/coalesce.c:245-263 | appends exactly when there is room |
| CoBackend.CompletionRing.TryPop | src/nvmev_l1.h:125-134 | takes exactly the oldest completion |
| MpscRing.ReadyExactly | src/nvmev_l1.h:112-122 | a waiting producer is let in exactly when the ring has come round to its position |
| MpscRing.TakeExactly | control/nvmevirt/coalesce.c:222-236 | the consumer takes exactly when the position at the tail is published |
| MpscRing.Outstanding | src/nvmev_l1.h:112-122 | no more positions are ever outstanding than the ring has entries and producers, and fewer while a producer is idle, so the 32-bit cursors never overrun |
| MpscRing.StepKeeps | src/nvmev_l1.h:112-122 | every atomic step of any producer or of the consumer keeps the ring sound |
| MpscRing.RunInOrder | control/nvmevirt/coalesce.c:222-236 | in every interleaving the payloads popped are those of the first reservations, in reservation order, and all of them once the tail has reached the head |
| MpscRing.OneEntryOverwrites | control/nvmevirt/coalesce.c:1504 | with a single entry a payload is overwritten before it is popped |
| DirectQp.HeadFollows | control/nvmevirt/backend_direct.c:636-640 | the 16-bit head and the phase follow the laps exactly below 65536 entries |
| DirectQp.HeadStuck | control/nvmevirt/backend_direct.c:636-640 | at 65536 entries the phase does not flip after the first lap |
| DirectQp.PollExactly | control/nvmevirt/backend_direct.c:622-640 | the phase test takes an entry for new exactly when it is, after every step of every run from a new pair, if and only if there are fewer than 65536 entries |
| DirectQp.RoundsDone | control/nvmevirt/backend_direct.c:549-654 | reads issued, fetched, completed and polled one at a time go round any number of times: the run that reaches the failing state at 65536 |
| DirectQp.QueuePair.StaleAccepted | control/nvmevirt/backend_direct.c:622-640 | at 65536 entries, in the state that run reaches, the poll accepts a completion it has reported already |
| DirectQp.PhaseTest | control/nvmevirt/backend_direct.c:622-629 | the phase test accepts the entry at the head exactly when it is new |
| DirectQp.IssueKeeps | control/nvmevirt/backend_direct.c:549-607 | issue overwrites no unfetched command and keeps every identifier at exactly one place |
| DirectQp.FetchKeeps | control/nvmevirt/backend_direct.c:590-606 | the device fetches the commands in order, as they were written |
| DirectQp.PostKeeps | control/nvmevirt/backend_direct.c:610-654 | a completion in any order overwrites no unreaped one |
| DirectQp.ReapKeeps | control/nvmevirt/backend_direct.c:610-654 | reaping frees the identifier and keeps reads and identifiers matched one to one |
| DirectQp.ReportedOnce | control/nvmevirt/backend_direct.c:610-654 | no read is reported twice |
| DirectQp.AllReported | control/nvmevirt/backend_direct.c:610-654 | with nothing in flight every accepted read has been reported |
| DirectQp.QueuePair.constructor | control/nvmevirt/backend_direct.c:261-270 | the pair every run starts from: all but one entry's worth of identifiers are free |
| DirectQp.QueuePair.IssueRead | control/nvmevirt/backend_direct.c:549-607 | refused for an absent device or a pair that cannot be created, then accepted, put off or refused exactly as pool and mapping say; an accepted read is a step of the run and writes the command for its block under the identifier on top; a refusal returns the identifier, and the device side never changes |
| DirectQp.QueuePair.DeviceFetch | control/nvmevirt/backend_direct.c:590-606 | the command fetched is the one issued next, as it was written: a step of the run |
| DirectQp.QueuePair.DevicePost | control/nvmevirt/backend_direct.c:610-654 | a completion of any command the device holds goes in at the next entry with the phase of its lap: a step of the run |
| DirectQp.QueuePair.PollOne | control/nvmevirt/backend_direct.c:619-650 | a new completion is found exactly when one was posted, answers its own read's cookie with the status posted, and is a step of the run; the device side never changes |
| DirectQp.QueuePair.Poll | control/nvmevirt/backend_direct.c:610-654 | afterwards every posted completion has been reported |
| ChannelModel.CreditsFit | control/nvmevirt/channel_model.h:8-42 | which bandwidths fit a byte of credits |
| ChannelModel.ParametersAre | control/nvmevirt/channel_model.h:8-42 | the credits are the whole units an interval moves at the bandwidth, the transfer time the whole nanoseconds a unit takes |
| ChannelModel.Channel.constructor | control/nvmevirt/channel_model.c:16-29 | an untouched ledger, every interval at its maximum in a byte: a sound model exactly for the bandwidths whose credits fit one |
| ChannelModel.SpendIs | control/nvmevirt/channel_model.c:86-106 | no interval grants more than the maximum, those before the last are full, and what is left over means a full horizon |
| ChannelModel.SpendConserves | control/nvmevirt/channel_model.c:86-106 | the credits granted are exactly those asked for, less what is left over |
| ChannelModel.SpendReaches | control/nvmevirt/channel_model.c:86-106 | the spending ends at the interval the request reaches: what is left up to the one before does not do, and with it, it does, or the horizon ends there |
| ChannelModel.ReachesOnce | control/nvmevirt/channel_model.c:86-106 | there is only one such interval |
| ChannelModel.QueuedReaches | control/nvmevirt/channel_model.c:86-106 | with k full intervals ahead and untouched ones after them, that interval is k plus the number the size needs, less one, further |
| ChannelModel.QueuedDelay | control/nvmevirt/channel_model.c:83-119 | such a request is late by k intervals, or by one less if it fills the last it needs |
| ChannelModel.UntouchedFinish | control/nvmevirt/channel_model.c:83-119 | a request on untouched intervals finishes after exactly its transfer time, if and only if that fits 32 bits |
| ChannelModel.UnitsExactly | control/nvmevirt/channel_model.c:39 | the 32-bit count is the least number of units that cover the length exactly while that number fits 32 bits |
| ChannelModel.Advanced | control/nvmevirt/channel_model.c:42-57 | the lazy reset keeps the array a mirror of the unbounded ledger |
| ChannelModel.GapExactly | control/nvmevirt/channel_model.c:42-45 | when the 32-bit gap moves the head as far as the real one |
| ChannelModel.Channel.MoveTo | control/nvmevirt/channel_model.c:42-57 | the head moves by the 32-bit gap, at most over what was granted, and exactly the intervals passed are reset; where that gap serves for the real one the ledger is still mirrored |
| ChannelModel.Channel.Consume | control/nvmevirt/channel_model.c:77-112 | the consuming loop on the array is the spending of the ledger |
| ChannelModel.Channel.Request | control/nvmevirt/channel_model.c:31-120 | requests in the past or beyond the horizon charge nothing; others charge the ledger from the interval found on and finish their transfer time later, and an interval later for each one they reach further than their size alone accounts for |
| ChannelModel.AheadExactly | control/nvmevirt/channel_model.c:71-78 | the interval found is the request's own exactly while it is less than 2^32 ahead |
| IoWorkList.InsertOrdered | control/nvmevirt/io.c:343-387 | insertion keeps every entry ahead of another due already or no later |
| IoWorkList.InsertForward | control/nvmevirt/io.c:369-386 | the forward links after insertion at head, tail or between |
| IoWorkList.InsertBackward | control/nvmevirt/io.c:369-386 | the backward links likewise |
| IoWorkList.ReclaimPartition | control/nvmevirt/io.c:512-530 | splicing a prefix leaves every entry on exactly one list |
| IoWorkList.DueIsPrefix | control/nvmevirt/io.c:483-510 | nothing due waits behind something that is not |
| IoWorkList.ReclaimsAllDue | control/nvmevirt/io.c:483-510 | once the due entries are served, what is reclaimed is exactly what is due |
| IoWorkList.Worker.constructor | control/nvmevirt/io.c:1096-1119 | all entries free and linked in order |
| IoWorkList.Worker.Allocate | control/nvmevirt/io.c:389-410 | fails exactly when one free entry is left, so the free list never empties; otherwise the first free entry takes the target, and no other entry changes |
| IoWorkList.Worker.FindPlace | control/nvmevirt/io.c:359-368 | the scan from the tail stops at the place insertion needs |
| IoWorkList.Worker.Enqueue | control/nvmevirt/io.c:412-481 | the request joins the active list in an entry of its own, not yet answered; the others keep their order, targets and flags |
| IoWorkList.Worker.Serve | control/nvmevirt/io.c:962-1030 | an entry is answered exactly once, when it is due |
| IoWorkList.Worker.Lap | control/nvmevirt/io.c:950-1039 | a lap of the worker answers everything that was due when it began |
| IoWorkList.AnsweredOnce | control/nvmevirt/io.c:962-1037 | over any run a request enqueued is answered at most once, not before its target, its entry reclaimed only after that, and until then it is queued |
| IoWorkList.Worker.Reclaim | control/nvmevirt/io.c:483-532 | exactly the longest done prefix moves to the end of the free list |
| Zns.CountsChange | control/nvmevirt/zns_ftl.h:53-87 | changing one zone's state changes the counts of open and active zones by just that zone |
| Zns.WriteFits | control/nvmevirt/zns_read_write.c:12-39 | a write let in fits its zone and keeps its write pointer rules, the full zone included |
| Zns.WriteStatusIs | control/nvmevirt/zns_read_write.c:107-158 | when a write goes through and each reason it does not, under its own condition |
| Zns.Zones.constructor | control/nvmevirt/zns_ftl.c:10-82 | every zone empty at its start, as many resources as zones |
| Zns.Zones.CloseZone | control/nvmevirt/zns_mgmt_send.c:7-29 | exactly the open and closed zones end closed; any other is refused and unchanged; counters kept equal to the zones in those states |
| Zns.Zones.FinishZone | control/nvmevirt/zns_mgmt_send.c:31-64 | any zone becomes full; counters likewise |
| Zns.Zones.OpenZone | control/nvmevirt/zns_mgmt_send.c:66-106 | a zone becomes explicitly open exactly when it is open, or closed with an open resource left, or empty with both left; a full one and one lacking a resource are refused, each with its own status |
| Zns.Zones.ResetZone | control/nvmevirt/zns_mgmt_send.c:108-156 | any zone becomes empty, the write pointer back at its start |
| Zns.Zones.ManageZone | control/nvmevirt/zns_mgmt_send.c:230-258 | one command changes exactly one zone, as the table says |
| Zns.Zones.ManageAll | control/nvmevirt/zns_mgmt_send.c:260-285 | with all zones selected a reset empties every zone, a finish fills every one, a close closes just the open ones, and an open opens every zone unless a resource it needs has run out; nothing else changes |
| Zns.Zones.Write | control/nvmevirt/zns_read_write.c:64-170 | put off when the write buffer has no room; otherwise written at the write pointer exactly when it is of whole units, at the pointer, within its zone, and the zone is open, or closed or empty with the resources it needs, the zone full exactly at its end; refused with nothing changed and the status of the first reason that applies. With as many resources as zones a fitting write at the pointer of a zone that is not full always succeeds |
| Zns.Zones.NeverShort | control/nvmevirt/zns_ftl.c:64-82 | with as many resources as zones no command lacks one |

## Left out

- FtlRunOut.RunsOut: for devices of fewer than 11 lines or fewer than 6 pages a line nothing is claimed about rewrites above the bound, since the run built uses that much room.
- FtlHost.HostRun: data is left out of the runs (every page is written with zero), since which line a page lies on does not depend on it.
- ConvNamespace.ConvWrite: write-buffer accounting and NAND timing become a flag and are not modelled.
- MpscRing.StepKeeps: loads and stores are single atomic steps, so weaker memory orders are not modelled.
- Coalesce.Shard.Lap: where the bucket it evicts, if it does, fits the window (`CoBuckets.BurstsFitExactly` says when it always does), and for rings of at most 2^29 entries, since beyond that the descriptors of a lap can lap the signed comparison of cursors.
- CoBuckets.BurstsFitExactly: without an age limit one way only (`CoBuckets.CapacityFits`), the other being false (`CoBuckets.AgedAtOnce`).
- Coalesce.Shard.RunDry: for rings of at most 2^29 entries and a bucket capacity within the ring, and a quiet lap counts only where the backend has room; one that answers "again" for ever keeps its requests waiting.
- ChannelModel.Channel.Request: assumes a clock that does not run back, with an idle gap the 32-bit arithmetic follows (`ChannelModel.GapExactly`).
- DirectQp.QueuePair.PollOne: at 65536 entries only for the first lap, after which the test fails as `DirectQp.PollExactly` shows.
- DirectQp.QueuePair.Poll: likewise.
- IoWorkList.Worker.Serve: the copy itself, the completion entry and the low-latency polling path are not modelled.
- Zns.Zones.ManageZone: for blocks within the zones; the handler does not check the zone number, and what it does beyond the last zone is not modelled.
- Zns.Zones.Write: likewise.
- Zns.Zones.OfflineZone: no zone becomes read-only, so only the refusal is reachable.
- Erase counts, wear and program-unit latencies of the translation layer.
- NAND pages and blocks as nested arrays: they are maps keyed by address, updated by reassignment.
- More than one plane per LUN, which the code does not use either.
- The list of pages held for the GPU, the done list and the return list are sequences rather than linked records.
- The library sort of the comparison mode and the bucket mode: any arrangement sorted by page.
- Real devices filling staging after a timeout; rows are proved right for the DRAM backends.
- The synchronous backend together with GPU-pull, threads split over two cores, and parameters changed while running.
- Teardown paths that drop completions on purpose.
- Statistics other than requests, pages and merges; the arrival-adjacent hit counter of the buckets.
- The hash that spreads requests over shards, the key-value namespace, random write areas of zones, admin commands, PCI plumbing, GPU kernels and the Python binding.
