# Verified model of the Agent Task Manager's protocols and algorithms

The repository is a gateway, a dashboard and their scripts. This project models the parts of it whose
promises are hard to see from the code: the event streams that wake up on lossy notices, the sampler
that decides which requests reach the ledger, the scheduler that refreshes pull-request states, the PNG
writer and its checksum, the backup script's calendar, retention and crash behaviour, the contract trie
that bounds path shapes, and the ledger tail. What is below is proved for all inputs, all runs or all
reachable states, except for the rows that say they are one concrete run or file: those show that something
can happen. Assumptions about the environment are named where they are made.

| file | models |
|---|---|
| `RunTail`, `RunTailMachine`, `RunTailClosing` | one subscription to a run's timeline, its cursor, and when it closes and stays open |
| `BoardTail` | the board stream built on the same wake-ups |
| `Sampler`, `SamplerTail` | the tail sampler: histogram, threshold, turns and stamped weights |
| `PrRefresh`, `PrRefreshMachine` | when a card's pull request is looked up again: the code, and the scheduler as a step machine |
| `PrLookup` | what one card's lookups do to its row, against GitHub's validators, failures and edits |
| `Fold`, `Checksum`, `ChecksumTheory` | the table-driven CRC-32 and what it detects |
| `Png`, `PngReader` | the PNG writer over byte arrays, and an independent reader |
| `Names`, `Calendar`, `Gregorian` | lexical order and decimal numbers, day names, ISO week names, and the calendar they name |
| `Newest`, `Shelf`, `Retention`, `Backups` | pruning, the staged swap with kills, whole runs of takes |
| `Crashes` | runs of takes and prunes over a whole root, each killed anywhere |
| `PathShapes`, `PathFilling`, `ContractTrie` | path shapes said of the route list, the paths that fill a route, and the mutable tree that computes shapes |
| `Utf8`, `Utf8Encoding` | the UTF-8 decoder, and the encoder it undoes |
| `LedgerTail`, `LedgerFollow` | the offset-based tail of a growing file, and `follow` over runs of ticks |

How state is modelled: a protocol is a datatype of states, a datatype of steps, `Apply` for one step and
`Reaches` for a run; `RunTail.Subscriber`, `Sampler.RequestSampler`, `PrRefresh.PrStates`, `Shelf.Root`,
`Backups.Backups`, `ContractTrie.RouteNode` and `LedgerTail.Follow` are the objects the code updates in
place, each method of which is tied to the functions the lemmas are about.

Where the prose of the code promises more than the code does, the code is modelled:

- `apps/gateway/src/pr-state.ts:13` says a card is looked up at most once per TTL, and line 48 thirty
  times an hour at the very most. A card that waits unstamped inside a batch can be offered again, and is
  then asked about twice in one millisecond (`PrRefreshMachine.TwiceInOneMillisecond`). The exact condition
  is `PrRefreshMachine.AskedTooSoonExactlyWhenWaitingWarm`; what always holds is
  `PrRefreshMachine.ThirdIsATtlAfterFirst`, and at most sixty-two lookups in an hour, which one run reaches
  (`PrRefreshMachine.LookupsInAWindow`, `PrRefreshMachine.WindowsCanBeFull`).
- `packages/db/src/repositories/task-edit.ts:151` says that writing the same link back costs one lookup.
  The row's cached state is cleared and the gateway's validator is not, so that lookup is answered
  "unchanged" and the card stays without a state until the pull request moves
  (`PrLookup.WritingTheLinkBackSticks`, `PrLookup.NewsThenTheLinkBackSticks`, `PrLookup.StuckStaysStuck`).
  A write of an answer that fails has the same effect (`PrLookup.ALostWriteSticks`), where
  `apps/gateway/src/pr-state.ts:244` has the card keep the state it had. Exactly when a lookup brings the row
  up to date is `PrLookup.LookupBringsUpToDate`, and without those two causes it always does
  (`PrLookup.LookupsKeepUp`).
- `scripts/backup.ts:703` says a swap never leaves neither set in place. That is true exactly when the
  target is complete when the swap starts (`Shelf.SwapKeepsOneInPlace`). Two takes killed inside `swapIn`
  with none finished between, followed by a third, can leave no complete set at all
  (`Shelf.TwoKillsLoseTheSet`). Exactly which runs of killed takes keep one at every moment is
  `Shelf.ASetAtEveryMoment`, and the same of every day and week still within the window, over runs of takes
  and prunes of the whole root, is `Crashes.DaysAreKept` and `Crashes.WeeksAreKept`.
- `apps/gateway/src/sse.ts:134-142` closes a stream on a run that is over. A row that lands between the
  empty page and the look at the run is never emitted (`RunTailMachine.RowInTheGapIsMissed`); how much a
  closed stream can miss is exact in `RunTailMachine.ClosedMissesOnlyLateRows`.
- `scripts/logs.ts:345-348` moves its offset by what the decoded text measures. A malformed byte measures
  three, so the offset can pass the end of the file (`LedgerTail.ShortOvershoots`; one byte 0xFF inside a
  quoted field is enough, `LedgerTail.StrayByteIsShort`). The next poll takes that for a truncation and
  starts again from the first byte of the file, not from where the tail started, so `follow` prints the
  whole file, history included, again on every poll while the file stays as it is
  (`LedgerTail.OvershootReprints`). If the file grows past the offset first, the bytes between its old end
  and the offset are never read (`LedgerTail.GrowthPastTheOffsetIsSkipped`), and a line that just fills them
  is lost (`LedgerTail.LineInTheOvershootIsLost`). The tail is exact if and only if no ended line holds such a
  piece (`LedgerTail.TailIsExact`), and so for every ledger written in UTF-8 (`LedgerFollow.EncodedTailIsExact`).
- `scripts/backup.ts:178` has a backup name the day it covers. In the years the ISO form writes with a sign,
  the ten letters end with the month, and all its days have one name (`Calendar.FarYearsLoseTheDay`).

## Model

| member | source | states |
|---|---|---|
| RunTail.PageAdvances | apps/gateway/src/sse.ts:176-189 | one page read moves the cursor over exactly the rows of the page: covered grows by it and the unread rows lose it from the front |
| RunTail.PageIsSlice | apps/gateway/src/sse.ts:177-184 | a page is the contiguous slice of the timeline that starts at the first row past the cursor, of 500 rows or as many as there are |
| RunTail.Subscriber.NextPage | apps/gateway/src/sse.ts:174-202 | one turn of the paginate loop: the batch, the new cursor, whether it closes and whether another page follows |
| RunTail.Subscriber.PagesAfter | apps/gateway/src/sse.ts:166-203 | the drain of a still log hands out every row after the cursor once, in order, in pages of at most 500, ends, and closes exactly on a terminus or on an empty last page of a run that is over |
| RunTailMachine.StepKeeps | apps/gateway/src/sse.ts:166-243 | every step of writer, channel, tick or consumer keeps the invariant of a subscription |
| RunTailMachine.ReadAndCheckAreATurn | apps/gateway/src/sse.ts:174-202 | a page read and the look at the run, with no step between them, are one turn of the paginate loop, where a run that is neither queued nor running is over |
| RunTailMachine.EmittedExactlyOnceInOrder | apps/gateway/src/sse.ts:166-243 | in every reachable state, what was emitted and the batch in hand are the rows with ordinals in (afterSeq, cursor], in order, each once |
| RunTailMachine.TerminusMeansComplete | apps/gateway/src/sse.ts:118-126 | a stream whose last event is terminal has emitted everything after afterSeq |
| RunTailMachine.ClosedMissesOnlyLateRows | apps/gateway/src/sse.ts:134-201 | a closed stream has emitted all its last page read could see; it is complete if and only if there was never a row past its cursor beyond those, appended later or deleted with its run before the read |
| RunTailMachine.RowInTheGapIsMissed | apps/gateway/src/sse.ts:191-197 | a concrete run in which a row between the empty page and the liveness read is never emitted |
| RunTailMachine.ClosedStaysClosed | apps/gateway/src/sse.ts:239 | nothing is emitted after closing, whatever steps follow |
| RunTailMachine.WakeUpNotLost | apps/gateway/src/sse.ts:212-238 | after a tick or a delivered notice with the three ids of the subscription, every row visible then is covered, or a page read is still to come, or the stream is closing |
| RunTailMachine.SettleDelivers | apps/gateway/src/sse.ts:234-241 | the consumer left to itself comes to rest, having emitted every row there is |
| RunTailMachine.TickDeliversEverything | apps/gateway/src/sse.ts:110-116 | a tick repairs any loss: its drain emits everything after afterSeq |
| RunTailMachine.SecondTickCloses | apps/gateway/src/sse.ts:110-152 | a run that is finished, failed, interrupted or deleted closes its stream by the second tick, wherever the consumer stands |
| RunTailClosing.ClosesOnlyWhenOver | apps/gateway/src/sse.ts:191-197 | a stream that has closed has emitted a finished, failed or stopped row last, or its run was, at some state of that run of steps, deleted, finished, failed or interrupted |
| RunTailClosing.LiveRunsStayOpen | packages/domain/src/run.ts:19-23 | while a run has always been queued or running and has no such row, its stream is open and its consumer goes back to waiting, before and after any tick |
| RunTailClosing.TerminusClosesAtATick | apps/gateway/src/sse.ts:118-126 | once the last row is finished, failed or stopped and past afterSeq, the next tick closes the stream, whatever the row of the run says |
| RunTailClosing.OpeningCatchesUp | apps/gateway/src/sse.ts:207-211 | the first drain, with no notice and no tick after the first, emits every row past afterSeq |
| RunTailClosing.OnlyItsNoticesWakeIt | apps/gateway/src/sse.ts:226-232 | a notice wakes a subscription if and only if all three ids are its own, and else changes nothing |
| BoardTail.StepKeeps | apps/gateway/src/board-sse.ts:136 | comparing each board with the one last sent is comparing it with the one last read |
| BoardTail.SentAreTheChangesRead | apps/gateway/src/board-sse.ts:133-138 | the boards sent are the boards read without consecutive repeats; neighbours differ and the last sent reads as the last read |
| BoardTail.ChangesAreChanges | apps/gateway/src/board-sse.ts:136 | dropping consecutive repeats leaves no two equal neighbours and keeps the last |
| BoardTail.QuietBoardIsDelivered | apps/gateway/src/board-sse.ts:114-122 | once changes stop and one more wake-up is processed, the subscriber was last sent the stored board |
| BoardTail.OpeningReadsOnce | apps/gateway/src/board-sse.ts:133-136 | a subscription reads once by itself and at most once more for each nudge, and its first board waits for none |
| Sampler.BucketOf | apps/gateway/src/request-sampling.ts:121-124 | the first edge a duration does not exceed, every earlier edge being exceeded |
| Sampler.TailThresholdOf | apps/gateway/src/request-sampling.ts:140-153 | the running-sum loop returns the edge `ThresholdAt` finds |
| Sampler.ThresholdAt | apps/gateway/src/request-sampling.ts:127-131 | the threshold is the lowest edge with 99% of the weight at or below it, or the last edge |
| Sampler.ThresholdIsUnique | apps/gateway/src/request-sampling.ts:127-131 | that description admits one edge only |
| Sampler.RequestSampler.constructor | apps/gateway/src/request-sampling.ts:230-237 | a configured turn below one is raised to one; no route is known yet |
| Sampler.OneInOneKeepsEverything | apps/gateway/src/request-sampling.ts:234-236 | a turn of one keeps every row of every trace at a weight of one |
| Sampler.RequestSampler.Rate | apps/gateway/src/request-sampling.ts:239-246 | one request changes only its own route's picture, to what the pure rule says |
| Sampler.WhatARowWeighs | apps/gateway/src/request-sampling.ts:180-214 | in every trace, however routes interleave, a row weighs one if its outcome is not "done", it is an event stream or its duration beats its route's threshold; any other row weighs one turn or nothing, by how many such rows its route had before |
| Sampler.OnOneRoute | apps/gateway/src/request-metrics.ts:68-69 | two requests share a picture if and only if they are on one known route or both on none |
| Sampler.RoutesAreIndependent | apps/gateway/src/request-sampling.ts:239-246 | for every interleaving, a route's decisions are those of its own subsequence |
| Sampler.WeightsRunAhead | apps/gateway/src/request-sampling.ts:199-214 | from any state, stamped weights equal the requests plus how far the turn counter has run ahead |
| Sampler.WeightsAreTheTraffic | apps/gateway/src/request-sampling.ts:29-35 | on every route of every trace the stamped weights exceed the requests by less than one turn, and never fall short |
| SamplerTail.ObservedIsPicture | apps/gateway/src/request-sampling.ts:155-178 | one observation keeps total equal to the sum of non-negative buckets and at most 1024; the landing bucket gains one, and past the window all halve |
| SamplerTail.PicturesStaySound | apps/gateway/src/request-sampling.ts:237-246 | every route's picture is sound in every state a sampler reaches |
| SamplerTail.BeatsThresholdWhen | apps/gateway/src/request-sampling.ts:140-153 | a duration beats the threshold if and only if it is past the last edge or 99% of the weight lies in lower buckets |
| SamplerTail.KeptByTailIsStamped | apps/gateway/src/request-sampling.ts:199-214 | the rows the tail rule keeps are those stamped one that are neither failures nor event streams |
| SamplerTail.TenPerBucketBetweenHalvings | apps/gateway/src/request-sampling.ts:126-131 | between two halvings the tail rule alone keeps at most ten requests from one finite bucket, in any order |
| SamplerTail.TailOverARun | apps/gateway/src/request-sampling.ts:126-131 | over a whole run it keeps from one finite bucket at most 10.25 and 5.125 more for every 512 requests, which is one in a hundred |
| SamplerTail.FirstNinetyNineAreNotTail | apps/gateway/src/request-sampling.ts:133-138 | none of a route's first 99 requests within the last edge is kept by the tail rule |
| SamplerTail.HundredthIsTailWhen | apps/gateway/src/request-sampling.ts:133-138 | for any edges and any 99 requests of a route, its hundredth, within the last edge, beats the threshold if and only if all 99 fell in lower buckets |
| PrRefresh.PruneKeepsDue | apps/gateway/src/pr-state.ts:158-172 | pruning never changes whether a card is due, then or at any later time |
| PrRefresh.OffersAreDue | apps/gateway/src/pr-state.ts:294-300 | a card is offered exactly when some task of the read is that card, has a link that parses, is neither merged nor closed, and was stamped within the last 120 seconds neither in the table nor on its row |
| PrRefresh.OfferOfOne | apps/gateway/src/pr-state.ts:113-138 | one task is offered, under its id and the reader's workspace, exactly then |
| PrRefresh.OffersOfBoth | apps/gateway/src/pr-state.ts:294-310 | the offers of a read are those of its tasks, in order |
| PrRefresh.UniqueIsLastOfEach | apps/gateway/src/pr-state.ts:269-272 | a batch comes down to the last offer of each card in it |
| PrRefresh.UniqueKeepsPlaces | apps/gateway/src/pr-state.ts:269-274 | cards stay in the order they were first offered |
| PrRefresh.PrStates.Prune | apps/gateway/src/pr-state.ts:163-172 | the deleting loop leaves what `Pruned` says: all up to 4096 entries, past them only those asked about within the last 120 seconds |
| PrRefresh.PrStates.Observe | apps/gateway/src/pr-state.ts:289-311 | the cards that call for a lookup are appended in order as far as there is room for 256; below that, exactly they and those waiting before wait after |
| PrRefresh.PrStates.TakeBatch | apps/gateway/src/pr-state.ts:264-272 | the queue is emptied, the table pruned, and each card left once |
| PrRefresh.PrStates.StartRefresh | apps/gateway/src/pr-state.ts:207-213 | the stamp goes in before the request, so no board read within the TTL finds the card due |
| PrRefresh.PrStates.FinishRefresh | apps/gateway/src/pr-state.ts:224-231 | an answer renews the validator and keeps the time asked, so under the standing stamp no card becomes due or fresh by it; none changes nothing |
| PrRefreshMachine.StepKeepsCard | apps/gateway/src/pr-state.ts:207-311 | every step of clock, board reads and drain fiber keeps what is known of every card |
| PrRefreshMachine.ThirdIsATtlAfterFirst | apps/gateway/src/pr-state.ts:163-311 | of any three successive lookups of a card the third starts at least a TTL after the first, in every reachable state |
| PrRefreshMachine.LookupsInAWindow | apps/gateway/src/pr-state.ts:44-51 | at most two lookups and two more per elapsed TTL in any window |
| PrRefreshMachine.WindowsCanBeFull | apps/gateway/src/pr-state.ts:44-51 | for every window there is a run that makes as many lookups in it as that bound allows, sixty-two for an hour |
| PrRefreshMachine.OnceARound | apps/gateway/src/pr-state.ts:257-263 | a round asks about each card once, and no card is in flight twice |
| PrRefreshMachine.FourAtOnce | apps/gateway/src/pr-state.ts:274-277 | in every reachable state at most four lookups are out, and the next starts whenever fewer are |
| PrRefreshMachine.TableKeeps | apps/gateway/src/pr-state.ts:158-228 | what each step of the fiber does to every entry of the freshness table, and that no other step touches it |
| PrRefreshMachine.NextKeepsTheTtl | apps/gateway/src/pr-state.ts:13-15 | unless a card waits while its last lookup is warm, its next one keeps the TTL, over every continuation |
| PrRefreshMachine.WaitingIsAskedAtOnce | apps/gateway/src/pr-state.ts:264-278 | a waiting card can be looked up again with no time passing |
| PrRefreshMachine.AskedTooSoonExactlyWhenWaitingWarm | apps/gateway/src/pr-state.ts:13-15 | "at most once per TTL" can fail for a card's next lookup if and only if it waits in queue or batch with its last lookup warm |
| PrRefreshMachine.TwiceInOneMillisecond | apps/gateway/src/pr-state.ts:13-15 | a concrete run whose only two lookups of a card fall in one millisecond |
| PrLookup.StepKeeps | apps/gateway/src/pr-state.ts:182-253 | every step of GitHub, of the board's edits and of the lookup keeps what is known of row, validators and answer in hand |
| PrLookup.StateIsOfThePresentLink | packages/db/src/repositories/task-pr.ts:123-168 | in every reachable state the state a card shows is one GitHub gave for the link it has now, however links were rewritten under lookups |
| PrLookup.HistoryIsHonest | apps/gateway/src/pr-state.ts:216-227 | a state counts as given for a link only when GitHub has it for the link asked about |
| PrLookup.OverIsOver | apps/gateway/src/pr-state.ts:16-19 | once merged or closed a row keeps its answer and no further lookup is sent, until its link is written or it is deleted |
| PrLookup.OnlyNewsIsWritten | apps/gateway/src/pr-state.ts:228-242 | a lookup changes the row only together with its state, and takes no answer to the row that says what it read |
| PrLookup.LookupsLeaveTheLink | packages/db/src/repositories/task-pr.ts:154-168 | over any lookups, answered, failed or late, a card stays, and keeps its link |
| PrLookup.LookupBringsUpToDate | apps/gateway/src/pr-state.ts:194-242 | a lookup leaves the row as GitHub has it if and only if it was so or the validator sent, the table's or else the row's, is not the current one; on a current one the row stays as it is |
| PrLookup.LookupsKeepUp | apps/gateway/src/pr-state.ts:20-23 | on every run with no link written and no write lost, every lookup brings the row up to date |
| PrLookup.NotBroughtUpToDateIsStuck | apps/gateway/src/pr-state.ts:194-242 | in a reachable state a lookup fails to do so if and only if the table's validator is current and the row's state is not |
| PrLookup.StuckStaysStuck | apps/gateway/src/pr-state.ts:194-253 | such a card stays so through any lookups until GitHub moves, the link is written, the card deleted or the entry pruned |
| PrLookup.ALostWriteSticks | apps/gateway/src/pr-state.ts:228-253 | a concrete run in which a failed write leaves a merged pull request shown as open |
| PrLookup.WritingTheLinkBackSticks | packages/db/src/repositories/task-edit.ts:140-156 | writing the same link back makes a card stuck if and only if the table holds GitHub's current validator |
| PrLookup.NewsThenTheLinkBackSticks | packages/db/src/repositories/task-edit.ts:140-156 | from every initial state with nothing cached for a live pull request that has a validator, one lookup and then the link written back leave the card stuck |
| Checksum.BuildTable | apps/dashboard/tools/png.ts:33-43 | the nested loops fill the table with each index put through eight bit steps |
| Checksum.ShiftIsLinear | apps/dashboard/tools/png.ts:38 | the bit step is linear over exclusive or |
| Checksum.UpdateIsEightBits | apps/dashboard/tools/png.ts:48 | one table step is eight steps of the bit-at-a-time register |
| Checksum.Crc32 | apps/dashboard/tools/png.ts:45-51 | the table loop computes the bit-at-a-time checksum of every byte string |
| ChecksumTheory.DivisorHasExponents | apps/dashboard/tools/png.ts:19 | the polynomial constant is the generator of RFC 2083, section 3.4, bit for bit |
| ChecksumTheory.RegisterDivides | apps/dashboard/tools/png.ts:36-39 | the shifting register carries out long division of polynomials over two elements |
| ChecksumTheory.CrcIsPolynomialRemainder | apps/dashboard/tools/png.ts:33-51 | the checksum is the complement of the remainder of the seeded message by the generator |
| ChecksumTheory.FeedDistinguishes | apps/dashboard/tools/png.ts:45-51 | from one register, different windows of at most 32 bits lead to different registers |
| ChecksumTheory.BurstDetected | apps/dashboard/tools/png.ts:45-51 | every burst error of at most 32 bits, at any position, changes the checksum |
| ChecksumTheory.OneByteDetected | apps/dashboard/tools/png.ts:45-51 | inputs that differ in exactly one byte never share a checksum |
| Png.Chunk | apps/dashboard/tools/png.ts:54-71 | the array holds length, name, payload and the checksum of name and payload |
| Png.Header | apps/dashboard/tools/png.ts:73-81 | the thirteen header bytes, sides big-endian and wrapped to 32 bits |
| Png.Scanlines | apps/dashboard/tools/png.ts:84-95 | every row in place behind a zero filter byte |
| Png.Concatenate | apps/dashboard/tools/png.ts:121-129 | one array of the total length holds the parts end to end |
| Png.EncodePng | apps/dashboard/tools/png.ts:97-130 | the whole file, or the error exactly when the pixel buffer has the wrong size |
| PngReader.ChunkReadsBack | apps/dashboard/tools/png.ts:54-71 | the reader takes a written chunk off the front of whatever follows it |
| PngReader.FileReadsBack | apps/dashboard/tools/png.ts:111-129 | a written file parses into its three chunks with nothing left over |
| PngReader.StripUndoesFilter | apps/dashboard/tools/png.ts:84-95 | stripping filter bytes undoes adding them |
| PngReader.RoundTrip | apps/dashboard/tools/png.ts:97-130 | a reader that knows the format by its own constants gives back the image if and only if both sides fit in 32 bits |
| PngReader.ByteIs | apps/dashboard/tools/png.ts:54-61 | the byte written for a number is the one whose bits add up to it |
| PngReader.DamagedChunkRefused | apps/dashboard/tools/png.ts:64-69 | a burst of at most 32 damaged bits in a chunk makes the reader refuse it |
| Calendar.YearOf | scripts/backup.ts:193-197 | the year whose days the day is among |
| Gregorian.YearsStart | scripts/backup.ts:190-197 | the first of January 1970 is day zero, and each year has 365 days, or 366 by the Gregorian rule |
| Gregorian.WeekdaysFollow | scripts/backup.ts:191 | day zero is a Thursday, and each day has the weekday after |
| Gregorian.DatesFollow | scripts/backup.ts:187-189 | day zero is 1970-01-01 and each day's date is the one after, by the lengths of the months: the date of no day is left open |
| Gregorian.WeekdayOfDate | scripts/backup.ts:190-192 | the weekday of every date is the one Sakamoto's rule gives |
| Gregorian.FourHundredYears | scripts/backup.ts:190-192 | the calendar repeats, weekdays included, every four hundred years |
| Calendar.IsoWeek | scripts/backup.ts:186-198 | moving the rebuilt date to its Thursday and counting from January names the ISO 8601 week if and only if neither the day's year nor its week's lies in 0 to 99 |
| Calendar.RebuiltIs | scripts/backup.ts:187-189 | a date put together again by `Date.UTC` is the same day, except that years 0 to 99 become 1900 to 1999 |
| Calendar.WeekOf | scripts/backup.ts:190-196 | week numbers are always 1 to 53 |
| Calendar.SameWeekSpans | scripts/backup.ts:182-185 | weeks run from Monday to Sunday |
| Calendar.WeeksFollow | scripts/backup.ts:182-185 | each week is followed by the next number or by week one of the next year |
| Calendar.FourthOfJanuary | scripts/backup.ts:182-185 | the fourth of January is in week one |
| Calendar.LongYears | scripts/backup.ts:182-185 | a year has 53 weeks if and only if it starts on a Thursday, or is leap and starts on a Wednesday |
| Calendar.TurnOfTheYear | scripts/backup.ts:182-185 | exactly which first and last days of a year belong to a week of the other year |
| Calendar.WeekNamesSort | scripts/backup.ts:186-204 | two days share a week name if and only if they share a week; otherwise the earlier sorts first, for years 1000 to 9999 |
| Calendar.DayNamesSort | scripts/backup.ts:179-204 | day names sort as the days follow, for years 0 to 9999 |
| Calendar.DayLabelDigits | scripts/backup.ts:179 | a day's name is its year in four digits, its month and its date in two, for years 0 to 9999 |
| Calendar.FarYearsLoseTheDay | scripts/backup.ts:179 | in other years of up to six digits it is the signed year and the month, the date cut off |
| Names.DigitsRead | scripts/backup.ts:179 | a number written in digits is read as itself |
| Names.PaddedIs | scripts/backup.ts:197 | `padStart` writes a number in that many digits |
| Newest.PartitionKeepsNewest | scripts/backup.ts:208-216 | of a listing in any order, exactly the newest recognised names are kept, newest first, the other recognised ones dropped, unrecognised names in neither |
| Newest.NewestAgain | scripts/backup.ts:208-216 | names already dropped never matter to a later prune |
| Newest.NewestNumbers | scripts/backup.ts:203-204 | a name is kept exactly when fewer than `keep` later days or weeks have one |
| Shelf.SwapKeepsOneInPlace | scripts/backup.ts:703-715 | a complete set under the name or set aside at every step of a swap, if and only if the target was complete at its start |
| Shelf.PutKeepsASet | scripts/backup.ts:789-793 | a take leaves a complete set at every step, however far it gets, if and only if it started with one in place or set aside |
| Shelf.ASetAtEveryMoment | scripts/backup.ts:704-715 | over any run of takes killed anywhere, a complete set at every moment if and only if no take begins where the only complete set is a staged one, which the steps of the takes before decide |
| Shelf.KillsApartSurvive | scripts/backup.ts:704-715 | which is so whenever a finished take lies between any two killed inside the swap |
| Shelf.TwoKillsLoseTheSet | scripts/backup.ts:704-715 | a concrete run of three killed takes that leaves no complete set |
| Shelf.PutIs | scripts/backup.ts:791-877 | a finished take leaves its set and neither staging nor anything set aside |
| Shelf.PutLeavesOtherSets | scripts/backup.ts:791-877 | a take leaves the three places of every other set alone, at every step |
| Shelf.Root.SwapIn | scripts/backup.ts:704-715 | the removals and renames pass through exactly the trees of the trail |
| Shelf.Root.Store | scripts/backup.ts:719-733 | staging and swapping one set passes through exactly the trees of the trail |
| Shelf.Root.Prune | scripts/backup.ts:736-765 | the deleting loop leaves the newest recognised names; no other name changes at any step |
| Crashes.PruneIsADeed | scripts/backup.ts:753-763 | what the deleting loop passes through is the one trail a prune of the runs below has |
| Crashes.DeedMoves | scripts/backup.ts:704-765 | one take of any set or one prune, killed at any step, keeps a complete set of a name within the window at each of its steps, and leaves it standing as said, unless it is the one take that loses it |
| Crashes.InTheWindowIsKept | scripts/backup.ts:704-765 | over any run of them from any root, a name within the window has a complete set at every moment if and only if its own takes survive as for one name |
| Crashes.DaysAreKept | scripts/backup.ts:788-879 | whatever days are taken and wherever each run is killed, a day once swapped in has a complete set at every moment, while fewer than `keep` later days are taken, if and only if no later take of it begins where its only complete set is staged |
| Crashes.WeeksAreKept | scripts/backup.ts:718-765 | the same of every week in the weekly root |
| Retention.NewestAreKept | scripts/backup.ts:736-765 | after any takes in any order, the recognised names are the newest `keep` of all there ever were |
| Retention.WhatIsLeft | scripts/backup.ts:718-765 | every set is the last stored under its name, no staging is left, unrecognised names are untouched |
| Backups.Backups.Take | scripts/backup.ts:768-879 | one finished take: the day stored, its week anchored to the same contents under the name the script gives it, both roots pruned |
| Backups.Backups.AnchorWeek | scripts/backup.ts:718-734 | the week's set becomes the day's set |
| Backups.DailyHoldsNewestDays | scripts/backup.ts:877-879 | from an empty root, a day's set is there exactly when fewer than `keep` later days were taken, and is the day's last |
| Backups.WeeklyHoldsNewestWeeks | scripts/backup.ts:730-733 | from an empty root, a week's set is there exactly when fewer than `keep` later weeks were taken in, and is the last taken in its week |
| Backups.DayNamesAreWritten | scripts/backup.ts:113 | a name is taken for a day's if and only if it is a four-digit, a two-digit and a two-digit number with dashes between |
| Backups.WeekNamesAreWritten | scripts/backup.ts:116 | a name is taken for a week's if and only if it is a four-digit number, `-W` and a two-digit number |
| PathShapes.SplitUndoesJoin | apps/gateway/src/request-metrics.ts:75-76 | splitting joined labels gives them back |
| PathShapes.LabelsAreWords | apps/gateway/src/request-metrics.ts:138-141 | no caller text: every label is a word of the contract or the one mark |
| PathShapes.ShapesAreSettled | apps/gateway/src/request-metrics.ts:143-157 | a shape is its own shape, for every route list |
| PathShapes.ShapeIsDeclaredPath | apps/gateway/src/request-metrics.ts:101-105 | a shape is a declared path, with the mark behind it exactly when the path goes on where the contract does not |
| PathShapes.ShapesAreBounded | apps/gateway/src/request-metrics.ts:101-105 | at most two shapes for each word of the contract and two for its root |
| PathShapes.ShapeIsOneOfThem | apps/gateway/src/request-metrics.ts:101-105 | every path has one of these shapes |
| PathFilling.FilledPathHasItsShape | apps/gateway/src/request-metrics.ts:86-99 | a path that has a route's words, and words not declared there for its `:` segments, has the route's own shape: its words, and names for its parameters, with no mark |
| PathFilling.DeclaredIs | apps/gateway/src/request-metrics.ts:106-115 | a path is declared if and only if some route begins with its words and with parameters where it has them |
| ContractTrie.GrowNode | apps/gateway/src/request-metrics.ts:87-99 | one segment adds its path to the tree and disturbs no other, new or known, word or parameter |
| ContractTrie.BuildContractTrie | apps/gateway/src/request-metrics.ts:106-115 | the tree's edges are exactly what the routes declare, each parameter under the name first given to it |
| ContractTrie.DeclaredHasANode | apps/gateway/src/request-metrics.ts:101-105 | every declared path has a node |
| ContractTrie.StepInto | apps/gateway/src/request-metrics.ts:120-128 | a word before the parameter, or nowhere, as the routes declare |
| ContractTrie.PathShapeOf | apps/gateway/src/request-metrics.ts:143-157 | the walk over the tree computes the shape the route list defines |
| Utf8.Measured | scripts/logs.ts:345-348 | decoded text never measures less than its bytes, and as much if and only if no malformed piece is shorter than three bytes |
| Utf8.LinesSplit | scripts/logs.ts:336-338 | bytes that end a line decode the same whatever follows |
| Utf8Encoding.DecodeUndoesEncode | scripts/logs.ts:336 | decoding any sequence of Unicode scalar values that was encoded gives one well-formed piece each, holding just its bytes |
| Utf8Encoding.FirstPieceIs | scripts/logs.ts:336 | a piece is well formed if and only if the bytes begin with an encoding, which it then is; any other is the longest beginning of an encoding there is, or one byte |
| Utf8Encoding.ByteLengthIsWritten | scripts/logs.ts:345-348 | what a text measures is the length of its bytes when written, U+FFFD for every malformed piece |
| LedgerTail.LastLineEnd | scripts/logs.ts:336-338 | the text up to its last line end is the text of the bytes up to their last newline |
| LedgerTail.DrainFile | scripts/logs.ts:319-352 | one poll hands on the rows of the lines that have ended past the offset, and moves it by what their text measures |
| LedgerTail.PollInStep | scripts/logs.ts:319-352 | a poll of a tail in step stays in step if and only if nothing it reads is short |
| LedgerTail.TailIsExact | scripts/logs.ts:319-352 | over any polls of a growing file the offset stays just past the last newline if and only if no ended line holds a short piece, and then each line is handed on once, whole, in order |
| LedgerTail.ShortOvershoots | scripts/logs.ts:345-348 | where the last line has ended, a poll leaves its offset past the end of the file if and only if something it reads is short |
| LedgerTail.StrayByteIsShort | scripts/logs.ts:336 | a byte 0xFF anywhere, in a quoted field for one, is short |
| LedgerTail.OvershootReprints | scripts/logs.ts:326-348 | for every file, start and parser: after a poll that overshoots, the second poll of the standing file hands on the whole file from its first byte, and every later one does again if and only if reading from there overshoots too |
| LedgerTail.GrowthPastTheOffsetIsSkipped | scripts/logs.ts:326-348 | if the file grows past the overshot offset before the next poll, all later polls hand on the rows of the lines from that offset on, so the bytes between the old end and the offset are never read |
| LedgerTail.LineInTheOvershootIsLost | scripts/logs.ts:326-348 | growth that ends exactly at the offset is not handed on at all |
| LedgerTail.LineStartOvershootsAlways | scripts/logs.ts:326-348 | it does for every tail that starts where a line does |
| LedgerTail.SplitCharacterOvershootsOnce | scripts/logs.ts:362-364 | a concrete file and a start inside a character that overshoot once and not again |
| LedgerTail.Follow.Tick | scripts/logs.ts:355-372 | a tick polls every file from its own offset, and of a file seen for the first time hands on nothing and stands at its end |
| LedgerFollow.EncodedTailIsExact | scripts/logs.ts:319-352 | a ledger of UTF-8 text followed from the end of any character is always in step and handed on whole, whatever its last line has of a character yet |
| LedgerFollow.FollowIsATail | scripts/logs.ts:355-372 | over any ticks, a file not known at the first is one tail from the end it had then |
| LedgerFollow.FollowHandsOnWhatIsAppended | scripts/logs.ts:362-364 | the first tick hands on nothing of a file, and all of them together the ended lines appended since |

## Left out

- PrRefresh.FreshestAt: times are non-negative milliseconds and the clock never goes back; a board read,
  and a stamp with the clock read before it, are each one step.
- PrRefreshMachine.Apply: the row a lookup reads, the lookup itself and the write of its answer are one
  `Finish` step with any outcome; they are taken apart in `PrLookup`, one card at a time.
- PrLookup.Apply: GitHub answers "unchanged" exactly to its current validator and never gives one validator
  for two states of a pull request (RFC 9110, section 8.8.3); rate limits and credentials are failures.
- Sampler.RateFor: weights and thresholds are exact reals, so rounding of `total × 0.99` and of halved
  weights is not modelled; the edges are any non-empty rising list, which the histogram's always is.
- RunTailMachine.Apply: ordinals become visible in rising order and nothing follows a terminal kind, which
  the writer and its transactions provide; the database, the notice channel and HTTP are steps or absent.
- PngReader.RoundTrip: deflate and inflate are parameters assumed inverse to each other, and compressed
  data is shorter than four gigabytes.
- Shelf.PutTrail: a dump in the making is one partial directory; the lock directory a killed run leaves,
  which an operator removes, the dump's contents, hardlink counts and the manifest are not modelled.
- Calendar.WeekNamesSort: only weeks of four-digit years sort, and days of the years 0 to 9999; others are
  named too, and how `Date.UTC` renames the years 0 to 99 is in `Calendar.IsoWeek`.
- LedgerTail.DrainFile: a poll reads all the bytes it asked for; polls of one file do not overlap.
  Truncation is in the code of a poll and not in the runs of a growing file.
- ContractTrie.PathShapeOf: the routes are any list of strings; reading them off the API contract is not modelled.
- `reconcilePhases`, `printStats`, the formatters and the SQL view of the ledger: short and without state.
- The whole of Postgres, `LISTEN`, GitHub, Docker, systemd, Telegram and Groq; layers, spans and logging.
- The agent loop, leases and repositories, restore and verify of a backup, the dashboard's interface, the
  service worker and the icon rasteriser.
