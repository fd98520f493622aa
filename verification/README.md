# A verified model of the FEMU FTL with simulated disk encryption

This project models the flash translation layer of `ftl.c` and `ftl.h`: the page map and
its reverse, page, block and line bookkeeping, the striped write pointer, the free list,
the victim queue and the full list, greedy garbage collection, and the timing of LUNs and
of the one encryption engine. `dafny verify dfyconfig.toml` checks all of it.

## How it is built

The source is imperative, and so is `Device.dfy`: class `Ssd` holds the arrays, lists and
counters that `ftl.c` updates in place, with one method per C function, the same branches
and loops, and the `ftl_assert` and `check_addr` statements as `assert` statements that the
verifier proves (the few that concern parts left out are named below). Each method is
proved against a function on a value, `State` (`Ftl.dfy`) or `Times` (`Timing.dfy`):
`View() == F(old(View()))`. What the FTL is for is then proved about those functions, over
all inputs and all runs.

The state carries a log of the NAND commands issued, and time is a fold over that log
(`Timing.Replay`). That the mapping state does not depend on time or on the encryption
switches is therefore visible in the types of the functions; that the interleaved C code
computes exactly these two parts is what the contracts of class `Ssd` say. They reach up
to whole runs: `Device.Simulate` is `ssd_init` followed by the loop of `ftl_thread`, and it
returns the latencies and the liveness that the theorems about runs speak of.

Notation: T = `tt_lines`, P = `pgs_per_line`, L = `tt_luns`, h = `gc_thres_lines_high`.
`Room` is `free_line_cnt`·P plus the unwritten pages of the current line.

`Invariant.Inv` ties all copies of the state together. It has a phase: `Idle` between
requests, or `Cleaning(v, ch, lun, pg)` inside a collection of line v, when pages of the
victim that are already copied are still marked valid and their reverse entries are stale.
Its parts: forward and reverse map are inverse exactly on the valid pages that are not yet
copied, and invalid pages have no reverse entry; a line is in exactly one of the free list,
the victim queue, the full list, the write pointer or the collection, the three counters are
the sizes, and `pos` is set exactly on queued lines; line and block counters equal the
number of valid and invalid pages; full lines have vpc = P, queued lines vpc + ipc = P with
ipc at least 1; the current line is written exactly up to the write pointer; a block was
erased as often as its line was collected. Every step of `ftl.c`, also inside a collection,
is shown to keep it, the initial state satisfies it (`Runs.InitInv`), and so does every state
that a run reaches.

Main results:

- `Capacity.ProvisionedIsDependable`: on a device with n < (T-1-h)·P exported pages and
  requests of at most h·P pages, no run reaches the `abort()`, a free line is left between
  any two requests, and every logical page reads as it was last written.
- `Capacity.CapacityExact`: the bound is exact for the reserve. Forced collection leaves more
  than h lines free on every run if and only if n < (T-1-h)·P; for a larger n the run that
  writes the pages once, one by one, shows the failure.
- `Abort.OnePageExact`: the bound for the abort itself, for writes of one page and any
  thresholds. With 1 <= n <= `tt_pgs`, no run on n pages reaches the `abort()` if and only if n < (T-1)·P; for a larger
  n a run that does is constructed. `Abort.SizedNeverAborts` and `Abort.LargeRequestAborts`
  give, for larger requests, a size that is always harmless and one that is not.
- `Amplification.WriteAmplification`: on every run on n pages, if users write u pages then the
  flash sees u + c writes, where c·((T-1-H)·P - n) <= n·u and H is the larger threshold. It
  follows from greedy choice (`CollectionCost`) and from the conservation of pages
  (`Logs.PagesConserved`).
- `Logs.WritesRotate`, `Logs.EveryLunOnce`, `Logs.WritesEven`: in the command log of every run,
  the k-th write, of a user or of a collection, goes to the LUN at k mod L, so any stretch with
  L writes hits every LUN once and the loads of any two LUNs differ by at most one write.
- `Histories.ReadsOfRun`, `Histories.WritesOfRun`, `Histories.OthersOfRun`,
  `Behaviour.BackgroundStep`: what each request of a run does, in terms of sectors, pages and
  commands. A read issues one command for each written page that its sectors meet, and a write
  one for each page that they meet, after forced collections of greedy lines that go on as long
  as the free lines are few and no longer; the charge is the largest latency of these commands;
  then one greedy line is collected exactly when few lines are free and a queued line has an
  eighth of its pages invalid. `Histories.LastWriterWins`: every page holds what the last
  request whose sectors met it had for it.
- `Collections.DoGcExact`: the commands of a collection, one by one: all of the collection and
  without a start time, a read and then a write for each valid page, on every LUN one erase
  after the reads of its block, one LUN after the other.
- `Requests.SsdWriteInv`, `Gc.DoGcInv`: when the abort does happen. A write aborts exactly
  when it covers at least as many pages as are free after the forced collections; a
  collection, exactly when the victim has at least as many valid pages as there is room for.
- `Latencies.RunDomination`, `Latencies.OffTweakTweakless`: request by request, the latency
  without encryption is at most that with tweaks, and that at most the tweakless one.
  `Device.Ssd.ServeAll` and `Device.Simulate` charge exactly the latencies compared.
- `Latencies.WriteLatency`, `Reading.ReadLatency`: exact latency of a write that needs no
  collection, and of a read, on idle LUNs, and their bounds under encryption.
- `Shipped.ShippedDevice`: the configuration of `run-blackbox.sh` meets all hypotheses.

What the code does where its own comments say otherwise: the loop at the head of `ssd_write`
is said to collect until `!should_gc`, and it collects until `!should_gc_high`
(ftl.c:884-885); the comment above `mark_page_invalid` says valid to valid, and the function
makes the page invalid (ftl.c:589-597); the layout parameters are said to need powers of two
(run-blackbox.sh:16), and nothing in `ftl.c` needs that. A request with an opcode that is
neither read, write nor dataset management is charged the latency of the request before it
(ftl.c:951-966); the model keeps that.

## Files

`Params` geometry, page index, write order, packed addresses; `Ftl` the state and its steps;
`Invariant`, `Steps` the invariant and the allocation steps; `Writes` the write loop; `Gc`
garbage collection; `Counting` conservation; `Requests` requests; `Runs` whole runs;
`Capacity` the exact capacity of the reserve; `Abort` which capacities and request sizes reach
the abort; `Timing` the timing model; `Striping`, `Latencies`, `Reading` latencies; `Logs` the
command log of whole runs; `Collections` the commands of a collection; `Behaviour` what one
request does, and `Histories` what each request of a run does; `Amplification` what collections cost; `Bookkeeping` erase counts and the choice
of the victim; `Fifo` the order of the free list; `Asserts` what the assertions of the source
demand; `Device` the imperative device; `Shipped` the configurations of the repository.

## Model

| member | source | states |
|---|---|---|
| Params.InitParamsValid | ftl.c:237-293 | the computed parameters are consistent and positive exactly when the configured ones are positive and fit the bit fields |
| Params.InitGeometry | ftl.c:246-293 | the configured values bound the coordinates of the pages that exist, and give the numbers of pages, LUNs, lines and pages of a line |
| Params.NoOverflow | ftl.c:257-285 | none of the int computations of ssd_init_params overflows exactly when the number of sectors fits an int, and the parameters of the model are among their results |
| Params.PgIdxThere | ftl.c:28-42 | every page has an index below tt_pgs, from which the page can be recovered |
| Params.PgIdxBack | ftl.c:28-42 | every index below tt_pgs is the index of a page |
| Params.PgIdxOrder | ftl.c:28-42 | pages are indexed channel by channel, then by LUN, block and page |
| Params.OffsetThere | ftl.c:157-209 | every page of a line has a place below pgs_per_line in the write order, which determines it |
| Params.OffsetBack | ftl.c:157-209 | every place in the write order of a line is that of a page: pg = k/L, lun = (k mod L)/nchs, ch = (k mod L) mod nchs |
| Params.UnpackPack | ftl.h:52-74 | the fields read back from a packed address are the stored ones cut to their widths; only an address with the reserved bit can read as unmapped |
| Params.PackIs | ftl.h:52-74 | blk from bit 0, pg from 16, sec from 32, pl from 40, lun from 48, ch from 56, and the reserved bit 63 |
| Params.PackingFaithful | ftl.c:211-224 | every page address that get_new_page can build survives the packing and is never UNMAPPED_PPA, if and only if the geometry fits the bit fields |
| Invariant.PosIsOffset | ftl.c:157-209 | counting the pages before the write pointer gives its place in the write order, pg*L + lun*nchs + ch |
| Steps.OldPage | ftl.c:590-622 | the page that holds a logical page is valid, its line is not free, and vpc = P exactly when its line is on the full list |
| Steps.UnmapInv | ftl.c:892-897 | invalidating the old page of a logical page keeps the invariant, with that logical page about to be remapped |
| Steps.NewPageIsFree | ftl.c:211-224 | get_new_page always yields a free page, never in the victim line nor in a free line |
| Steps.PutPageInv | ftl.c:899-905 | setting both maps and marking the new page valid keeps the invariant |
| Steps.NextOffset | ftl.c:157-209 | the write pointer advances to the next place of the write order, and is at the last place exactly when it is at the last channel, LUN and page |
| Steps.WpFromPos | ftl.c:157-209 | the k-th page of a line is on channel k mod nchs, LUN k / nchs mod luns_per_ch, page k / (nchs * luns_per_ch) |
| Steps.AdvanceInv | ftl.c:157-209 | advancing aborts exactly when the page just written was the last of the room; otherwise the invariant holds with one page of room less |
| Writes.NextSlot | ftl.c:157-209 | consecutive allocations visit the LUNs in turn, also across a line change |
| Writes.PlaceInv | ftl.c:692-715 | an allocation takes a free page, maps the logical page to it, changes no other logical page, and issues one write to its LUN; it aborts exactly on the last page of room |
| Writes.WritePageInv | ftl.c:891-916 | one page of a write: reads of that page give the new data, all others are unchanged, the invariant holds; abort exactly when one page of room is left |
| Writes.WritePagesInv | ftl.c:891-918 | the write loop aborts exactly when it covers at least as many pages as there is room for; otherwise the flat map is overwritten on the range and the LUNs are written in turn |
| Gc.SelectVictimGreedy | ftl.c:730-750 | the victim has the most invalid pages of all queued lines, and a line is taken exactly when one is queued and (forced, or some queued line has ipc >= P/8) |
| Gc.MovePageInv | ftl.c:692-728 | copying a valid page keeps the in-flight invariant and everything readers see, and leaves the victim line as it is |
| Gc.CleanBlockInv | ftl.c:753-773 | cleaning a block copies exactly its valid pages; it aborts exactly when they are as many as there is room for |
| Gc.EraseBlockInv | ftl.c:659-677 | erasing a cleaned block keeps the invariant and what readers see, although reverse entries stay stale |
| Gc.EraseStale | ftl.c:659-677 | exactly the pages of the block become free, and all reverse entries stay |
| Gc.RecycleBlockInv | ftl.c:802-824 | one round of do_gc: a block's valid pages are copied, its invalid pages disappear, its LUN ends with a command of the collection |
| Gc.CleanLineInv | ftl.c:800-824 | the nested loops empty the victim line, with a command of the collection last on every LUN; abort exactly when its valid pages are as many as there is room for |
| Gc.MarkLineFreeInv | ftl.c:775-784 | returning the emptied line to the free list restores the invariant that holds between requests |
| Gc.CollectInv | ftl.c:786-830 | a collection aborts exactly when the victim has as many valid pages as there is room for; otherwise exactly the victim's ipc invalid pages become room, the free lines are as many as before or one more, and readers see no change |
| Gc.DoGcInv | ftl.c:786-830 | do_gc collects the greedy victim with that result, or leaves the state and says that no queued line qualifies |
| Collections.CleanBlockCmds | ftl.c:753-773 | cleaning a block issues one read of its LUN and then one write for each valid page, without start times |
| Collections.CleanLineCmds | ftl.c:800-824 | the nested loops issue these for each block and then its erase, channel by channel |
| Collections.DoGcExact | ftl.c:786-830 | exactly when a queued line qualifies, one greedy line is collected: vpc reads and vpc writes, each write right after its read, on every LUN as many reads as its block has valid pages and then one erase, one LUN after the other, all of the collection and with start time 0; otherwise only the number of lookups changes |
| Counting.LinePartition | ftl.c:84-134 | free, victim and full counters sum to T-1 |
| Counting.LineTotal | ftl.c:284-287 | a line has exactly P pages, valid, invalid or free |
| Counting.ValidIsMapped | ftl.c:899-905 | there are as many valid pages as mapped logical pages |
| Counting.RoomIsFreePages | ftl.c:103-134 | the free pages of the device are free_line_cnt lines and the unwritten pages of the current line |
| Counting.PageConservation | ftl.c:590-657 | mapped logical pages, invalid pages and room sum to tt_pgs |
| Requests.PagesOfRange | ftl.c:837-838 | for every start and count, start_lpn to end_lpn are exactly the logical pages l with l * secs_per_pg < slba + nlb and slba < (l + 1) * secs_per_pg |
| Requests.PagesHoldSectors | ftl.c:872-874 | with at least one sector, these are exactly the pages that hold one of the sectors |
| Requests.ReadPagesInv | ftl.c:847-863 | ssd_read changes nothing but the log, which gains one read per mapped page of the range |
| Requests.GcStep | ftl.c:786-830 | a collection that starts with a free line never aborts; a successful one leaves fewer invalid pages; a forced refusal means an empty queue |
| Requests.ForcedGcInv | ftl.c:884-889 | the forced-collection loop ends, with more than h free lines or an empty victim queue, without an abort if a line was free, and readers see no change |
| Requests.SsdWriteInv | ftl.c:868-921 | a write aborts exactly when it covers at least as many pages as are free after the forced collections |
| Requests.HandleRequestInv | ftl.c:951-963 | a request that does not abort has on the flat map the effect of its write, or none |
| Requests.BackgroundGcInv | ftl.c:975-978 | background collection is invisible to readers and never aborts when a line is free |
| Requests.ServeInv | ftl.c:951-978 | one request step keeps the invariant and refines one step of the flat map |
| Runs.InitInv | ftl.c:369-402 | the initial state satisfies the invariant, is all room, and maps nothing |
| Runs.InitOrder | ftl.c:84-134 | line 0 is current at its first page, and lines 1 to T-1 are free, in order |
| Runs.RunRefinesFlatMap | ftl.c:868-978 | for every run that does not abort, each logical page reads as last written and is mapped exactly when it was written |
| Runs.EmptyQueueMeansFree | ftl.c:884-889 | with an empty victim queue and fewer than (T-1-h)P mapped pages, more than h lines are free |
| Runs.ForcedGcEnough | ftl.c:884-889 | on a provisioned device forced collection always ends with more than h free lines |
| Runs.WriteSafe | ftl.c:868-921 | a write of at most hP pages on a provisioned device goes through and leaves a free line |
| Runs.ServeSafe | ftl.c:951-978 | one request step, background collection included, keeps a free line |
| Runs.NeverAborts | ftl.c:190-197 | on a provisioned device the abort is unreachable on every run of moderate requests |
| Capacity.FillRun | ftl.c:868-921 | writing logical pages once, one by one, collects nothing and uses one page of room each |
| Capacity.Overfill | ftl.c:884-889 | on a device that is not provisioned, the run that writes (T-1-h)P pages once leaves forced collection with at most h free lines |
| Capacity.CapacityExact | ftl.c:884-889 | forced collection leaves more than h lines free on every run on n logical pages if and only if n < (T-1-h)P |
| Capacity.ProvisionedIsDependable | ftl.c:190-197 | from the blank device: no abort, a free line at the end, and every logical page reads as last written |
| Abort.RoomyGc | ftl.c:786-830 | with a line of room no collection aborts |
| Abort.FreeByCount | ftl.c:884-889 | with an empty victim queue and n logical pages in use, at least T-1-n/P lines are free |
| Abort.SizedNeverAborts | ftl.c:868-978 | with n pages in use, writes of at most (f-1)P+1 pages never lead to an abort, where f = min(h+1, T-1-n/P) |
| Abort.StuckGc | ftl.c:786-830 | without a free line, and with one invalid page on the device and P-1 free ones, every collection aborts |
| Abort.TooManyPages | ftl.c:868-978 | for every n from (T-1)P on there is a run of one-page writes on n pages that ends in the abort |
| Abort.OnePageExact | ftl.c:868-978 | no run of one-page writes and of reads on n >= 1 pages aborts, if and only if n < (T-1)P, for all thresholds |
| Abort.LargeRequestAborts | ftl.c:868-921 | with n pages in use, some run aborts whose largest write has m pages, for every m of at least tt_pgs - n |
| Timing.ReadStep | ftl.c:470-501 | a read holds its LUN for pg_rd_lat from the later of arrival and available-time; a user read with delay, or any with tweakless delay, is then decrypted when the engine is ready; otherwise the engine is not touched |
| Timing.WriteStep | ftl.c:522-556 | a user write with delay, or any with tweakless delay, is encrypted when the engine is ready, then programmed when the LUN is; otherwise only programmed |
| Timing.EraseStep | ftl.c:572-580 | an erase holds its LUN for blk_er_lat and never touches the engine |
| Timing.OtherTimes | ftl.c:467-473 | other LUNs keep their times, the clock is read exactly for a start time of 0, and the end of collection is recorded exactly for writes and erases of a collection |
| Timing.ApplyAt | ftl.c:467-587 | a command changes the times of its own LUN only |
| Timing.UserMaxBounds | ftl.c:861-862 | no user command has a larger latency than the result of the request |
| Timing.UserMaxAttained | ftl.c:861-862 | the result of the request is the latency of one of its user commands, unless it is 0 |
| Timing.StepNoLater | ftl.c:467-587 | one command under no slower latencies and no more use of the engine ends no later and costs no more |
| Timing.Domination | ftl.c:467-587 | the same for every sequence of commands |
| Timing.NoOverlap | ftl.c:484-574 | busy intervals of one LUN never overlap, nor do those of the engine |
| Timing.ServiceOrder | ftl.c:484-574 | decryption begins after the read, programming after the encryption, nothing before arrival, so the latency is at least the service time and never underflows |
| Timing.WorkBound | ftl.c:467-587 | no available-time is later than the latest start time plus the total service time so far |
| Timing.TweaksSpareCollection | ftl.c:487-501 | with tweaks the commands of a collection leave all times exactly as if encryption were off |
| Timing.TweaklessLoadsEngine | ftl.c:487-537 | tweakless, the engine is busy for dec_lat per read and enc_lat per write, of users and collections alike |
| Striping.WriteCmdsAt | ftl.c:908-913 | the i-th write of a request goes to the i-th LUN after the write pointer |
| Striping.PlainWriteLatency | ftl.c:538-547 | n striped writes to idle LUNs take exactly n/L, rounded up, page writes |
| Striping.EncryptedWriteLatency | ftl.c:524-537 | with an idle engine they take between n encryptions and one page write, and n encryptions and n/L, rounded up, page writes |
| Latencies.StartsIdle | ftl.c:329-347 | at the start every LUN and the engine are available at time 0 |
| Behaviour.ForcedTrace | ftl.c:884-889 | forced collection goes from greedy line to greedy line, each started with at most h free lines, and stops at the first state with more, with an empty queue, or at an abort |
| Behaviour.WriteRequest | ftl.c:868-921 | a write collects so, then issues one write for each page that its sectors meet, to the LUNs in turn with its start time, and puts its data there and nowhere else; it aborts exactly when these are as many as the free pages |
| Behaviour.ReadRequest | ftl.c:832-866 | a read issues one read, with its start time, for each mapped page that its sectors meet, in ascending order, to the LUN that holds it, and does nothing else |
| Behaviour.OtherRequest | ftl.c:958-963 | other requests do nothing |
| Behaviour.BackgroundStep | ftl.c:975-978 | after the request one greedy line is collected, with its commands, exactly when at most gc_thres_lines lines are free and a queued line has ipc >= P/8; otherwise only the number of lookups changes |
| Behaviour.BackgroundCollectsOne | ftl.c:975-978 | when it is due exactly one line is collected, otherwise log and lines are as they were |
| Behaviour.Charged | ftl.c:951-966 | a read or write is charged the largest latency of its user commands, dataset management 0, another request what was charged before |
| Behaviour.LatencyOfEach | ftl.c:936-980 | the charge of the i-th request of a run is that of the state and the times that the requests before it lead to |
| Histories.LastWriterWins | ftl.c:868-921 | after a run a page is mapped exactly when the sectors of some write met it, and holds what the last such write had for it |
| Histories.NextState | ftl.c:936-980 | each request takes the state of a run one request step further, until an abort, after which nothing happens |
| Histories.ReadsOfRun | ftl.c:832-866 | every read of a run issues one read for each written page that its sectors meet, changes nothing else, and is charged the largest latency of these |
| Histories.WritesOfRun | ftl.c:868-921 | every write of a run does what Behaviour.WriteRequest says, and is charged the largest latency of its writes |
| Histories.OthersOfRun | ftl.c:958-966 | in a run, dataset management is charged 0 and another request what the one before it was |
| Reading.PlainReads | ftl.c:496-501 | without encryption reads to idle LUNs take exactly as many page reads as the busiest LUN gets |
| Reading.DecryptedReads | ftl.c:487-495 | with encryption, tweaks or not, and an idle engine, n reads take n decryptions and between one page read and those of the busiest LUN |
| Reading.ReadLatency | ftl.c:832-866 | the charge of a read request on idle LUNs, exactly without encryption and in bounds with it |
| Latencies.CarriedTimes | ftl.c:951-978 | a request step only appends to the command log, and the times at the next request are those that the whole log leads to |
| Latencies.AllCompleted | ftl.c:951-978 | a run that does not abort charges a latency to every request |
| Latencies.RunDomination | ftl.c:467-587 | two devices that serve the same requests with the same clock readings: the slower one charges no request less |
| Latencies.OffTweakTweakless | ftl.c:487-495 | off is at most with tweaks, which is at most tweakless, for every request of every run |
| Latencies.SettledEnds | ftl.c:724-725 | a LUN whose last command is a write or an erase of a collection has gc_endtime equal to its available-time |
| Latencies.GcEndsEverywhere | ftl.c:804-824 | after every successful do_gc that holds for all LUNs |
| Latencies.WriteLatency | ftl.c:891-920 | the latency charged for a write that needs no collection, exactly without encryption and in bounds with it |
| Latencies.ReadIssues | ftl.c:847-863 | after every run a read of a range issues exactly one read for each logical page of it ever written, and none for the others |
| Logs.PlaceKeeps | ftl.c:692-715 | an allocation, of a user or of a copy, only appends to the log, and keeps the rotation and the balance of writes and room |
| Logs.CleanLineKeeps | ftl.c:800-824 | the copies and erases of a collection only append commands of the collection, and keep the rotation and the balance |
| Logs.ServeKeeps | ftl.c:951-978 | one request step, with its collections, only appends to the log, goes on with the rotation, and conserves pages |
| Logs.EvenShares | ftl.c:157-209 | after N writes in rotation the LUN at slot i has N/L of them, and one more exactly when i < N mod L |
| Logs.WritesRotate | ftl.c:157-209 | in the log of every run, aborted or not, the k-th write goes to the LUN at k mod L, and the next allocation continues the rotation |
| Logs.WriteGoesTo | ftl.c:157-209 | the k-th write of a run goes to channel k mod nchs and LUN k / nchs mod luns_per_ch |
| Logs.EveryLunOnce | ftl.c:157-209 | in the log of every run, any stretch with L writes, of users and collections, has exactly one to every LUN |
| Logs.WritesEven | ftl.c:157-209 | over every run, the writes to any two LUNs differ by at most one |
| Logs.PagesConserved | ftl.c:868-978 | over every run, writes issued plus free pages are tt_pgs plus P for every collection |
| Amplification.CollectionCost | ftl.c:730-750 | with n logical pages in use, the greedy victim's valid pages times T-1-free_line_cnt are at most n |
| Amplification.DoGcAccounts | ftl.c:786-830 | every collection copies exactly the victim's valid pages, within that cost |
| Amplification.WriteAmplification | ftl.c:868-978 | on every run on n pages with u pages written by users, the flash sees u + c writes with c((T-1-H)P - n) <= nu |
| Bookkeeping.GreedyCost | ftl.c:59-67 | the victim's valid pages times the number of queued lines are at most the valid pages of all queued lines |
| Bookkeeping.EraseBookkeeping | ftl.c:659-677 | all blocks of a line have the same erase count, the number of its collections, and every LUN has one erase per collection |
| Fifo.WritesTakeInOrder | ftl.c:141-155 | writes take lines from the front of the free list, in order |
| Fifo.CollectedLineWaits | ftl.c:775-784 | a collected line queues up behind all lines that are still free |
| Asserts.InvalidateAllowed | ftl.c:601-619 | the assertions of mark_page_invalid hold whenever ssd_write calls it |
| Asserts.ValidateAllowed | ftl.c:645-655 | the assertions of mark_page_valid hold for every page from get_new_page |
| Asserts.AdvanceAllowed | ftl.c:176-186 | at the end of a line it is full without invalid pages, or it has invalid pages |
| Asserts.BlkTotal | ftl.c:305-316 | a block has exactly pgs_per_blk pages, valid, invalid or free |
| Asserts.CleanedCount | ftl.c:772-772 | the block counter equals the number of pages copied |
| Device.Ssd.SetRmapEnt | ftl.c:52-57 | changes the reverse entry of one page and of no other, although entries are found by index |
| Device.Ssd.InvalidateInLine | ftl.c:612-634 | the line counters move by one page, through the queue when the line is queued, and a full line goes to the victim queue |
| Device.Ssd.MarkPageInvalid | ftl.c:590-635 | the new state is Ftl.MarkPageInvalid of the old one |
| Device.Ssd.MarkPageValid | ftl.c:637-657 | the new state is Ftl.MarkPageValid of the old one |
| Device.Ssd.FreePages | ftl.c:665-670 | exactly the pages of the block become free, and keep their reverse entries |
| Device.Ssd.MarkBlockFree | ftl.c:659-677 | the new state is Ftl.MarkBlockFree of the old one |
| Device.Ssd.MarkLineFree | ftl.c:775-784 | the new state is Ftl.MarkLineFree of the old one |
| Device.Ssd.GetNextFreeLine | ftl.c:141-155 | yields and removes the first free line, or says there is none |
| Device.Ssd.FileCurrentLine | ftl.c:177-189 | the used-up line goes to the full list exactly when all its pages are valid, to the victim queue otherwise |
| Device.Ssd.AdvanceWritePointer | ftl.c:157-209 | the new state is Ftl.AdvanceWritePointer of the old one; a missing free line aborts |
| Device.Ssd.Occupy | ftl.c:480-584 | the switch over the commands computes the LUN time, the engine time and the latency of Timing.ServiceOf |
| Device.Ssd.AdvanceStatus | ftl.c:467-587 | times and latency are those of Timing.Advance and Timing.LatencyOf |
| Device.Ssd.SetGcEndtime | ftl.c:724-725 | the end of collection of one LUN becomes its available-time |
| Device.Ssd.MapNewPage | ftl.c:899-908 | both maps, the new page and the write pointer change as in one allocation |
| Device.Ssd.GcWritePage | ftl.c:692-728 | the page's logical page and contents are placed on a new page, and the end of collection is recorded |
| Device.Ssd.CleanOneBlock | ftl.c:753-773 | the new state is Ftl.CleanBlock of the old one, the block had no free page, and its counter is the number of its valid pages, all copied |
| Device.Ssd.PqueuePeek | ftl.c:735-738 | yields a queued line of least vpc, if there is one |
| Device.Ssd.SelectVictimLine | ftl.c:730-750 | result and new state are those of Ftl.SelectVictim |
| Device.Ssd.RecycleOneBlock | ftl.c:804-822 | the new state is Ftl.RecycleBlock of the old one |
| Device.Ssd.CleanVictim | ftl.c:800-824 | the nested loops compute Ftl.CleanLine |
| Device.Ssd.DoGc | ftl.c:786-830 | result and new state are those of Ftl.DoGc, and all commands issued are of the collection |
| Device.Ssd.UpdateOldPage | ftl.c:892-897 | the new state is Ftl.Unmap of the old one |
| Device.Ssd.WriteOnePage | ftl.c:891-916 | the new state is Ftl.WritePage of the old one, and the latency is that of its command |
| Device.Ssd.PerformForcedGc | ftl.c:884-889 | the loop ends and computes Requests.ForcedGc |
| Device.Ssd.SsdWrite | ftl.c:868-921 | the new state is Requests.SsdWrite of the old one, and the result is the largest latency of its user commands |
| Device.Ssd.SsdRead | ftl.c:832-866 | the new state is Ftl.ReadPages of the old one, and the result is the largest latency of its commands |
| Device.Ssd.InitLines | ftl.c:84-115 | all lines are free, in order |
| Device.Ssd.InitMaps | ftl.c:349-367 | nothing is mapped, and no page has a reverse entry |
| Device.Ssd.InitNand | ftl.c:295-347 | all pages are free, all counters and available-times 0 |
| Device.Ssd.InitManagement | ftl.c:391-398 | with blank maps and flash, the device is in the initial state, at time 0 |
| Device.Ssd.constructor | ftl.c:369-402 | the device is in the initial state, at time 0 |
| Device.Ssd.ServeRequest | ftl.c:951-978 | one request step: state, flat map, charged latency and the times afterwards are those of the specification, and the command log only grows |
| Device.Ssd.ServeAll | ftl.c:936-980 | the loop over requests computes Runs.Run and charges exactly Latencies.RunLatencies |
| Device.Simulate | ftl.c:369-402 | ssd_init and then the loop of ftl_thread: the latencies are those of RunLatencies from the blank device, and on provisioned pages every request is completed |
| Shipped.TiesExist | ftl.c:59-62 | some way of breaking ties among lines of equal vpc exists, so the theorems are about something |
| Shipped.ShippedFits | run-blackbox.sh:16-34 | the shipped configuration is valid, free of int overflow, provisioned for its 750 MB, and every request of 16-bit sector count is moderate |
| Shipped.ShippedDevice | run-blackbox.sh:16-34 | it serves every run of such requests without an abort, as a flat map |
| Shipped.NotesDevice | results/notes.txt:1-17 | the configuration of the result notes is valid, free of int overflow and, with the default collection thresholds of 75% and 95%, provisioned for its 12288 MB |

## Left out

- `femu.c`: device registration, properties, doorbells and teardown.
- `nvme.h`: the wire structures; of a request only start sector, sector count and start time are used, and the data to be written is added.
- Rings, threads and the polling loop of `ftl_thread`: one request is served after the other.
- The heap of the priority queue: `inc/pqueue.h` is not part of this model. Insertion, removal of the top, change of priority and the position callback are modelled by their effect on the set of queued lines, and `pos` by whether it is 0.
- Device.Ssd.PqueuePeek: which of several lines of equal vpc the heap yields depends on its history, so it is an input (`Ties`), arbitrary but fixed for each lookup.
- Device.Ssd.AdvanceStatus: the real-time clock is an input (`Clock`), one value per reading; the wrap-around of 64-bit nanoseconds is not modelled, and Timing.WorkBound bounds all times by the latest start time plus the service time so far.
- Device.Ssd.SsdWrite: a range that ends beyond tt_pgs, where the source prints an error and then indexes out of bounds, is excluded by the precondition; so is a sector count of 0 at sector 0, where the end wraps around and the loop does the same. A sector count of 0 elsewhere is modelled: no page, or one page when the start is unaligned.
- Device.Ssd.SsdRead: the same two exclusions.
- Device.Ssd.MarkBlockFree: sector status, the page and block sizes stored in each page and block with their assertions (ftl.c:668, 673), and the unused fields `wp`, `busy` and `gc_endtime` of a channel are not modelled. The other assertions left out are those on the plane, which is always 0 (ftl.c:205, 221), and on pointers (ftl.c:374, 950).
- Params.InitParamsValid: overflow is not part of validity; Params.NoOverflow says exactly which geometries have none. The two line thresholds, computed in floating point by the source, are natural-number parameters.
- Abort.OnePageExact: exact for writes of one page. For larger requests Abort.SizedNeverAborts and Abort.LargeRequestAborts bound the largest harmless size from below and above; the exact size, which depends on what background collection has left queued, is not determined.
- Several planes per LUN, channel transfer time, disabled GC delay, and the code under `#if 0` or without CRYPT: dead or unsupported in the source.
- Data is modelled per logical page and only in proofs; real encryption is only a delay in the source.
