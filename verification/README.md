# Verified models of the unsafie server

The server runs an agent behind Telegram bots.  This project models, in Dafny,
the parts of it that are algorithms or protocols rather than plumbing, and
proves what they promise.  `dafny verify dfyconfig.toml` verifies everything.

| file | models |
|---|---|
| `merge.dfy`, `mergeunion.dfy`, `mergeoutput.dfy`, `mergefiles.dfy` | the three-way merge of lines, files and trees of the editor's file store (`github/merge.py`) |
| `calendar.dfy`, `cron.dfy`, `cronfires.dfy`, `cronstandard.dfy`, `cronparse.dfy`, `cronprint.dfy` | cron expressions: parsing, printing and parsing again, the skip-ahead search, when an expression fires at all, and where the day rule departs from the crontab utility's (`scheduler/cron.py`) |
| `when.dfy`, `whenamounts.dfy` | durations as people write them, and printing them (`scheduler/when.py`) |
| `render.dfy`, `renderentities.dfy` | message entities to markdown, and what becomes of each entity (`telegram/render.py`) |
| `mention.dfy` | cutting a mention out of a message (`telegram/group.py`) |
| `wire.dfy`, `websocket.dfy` | the browser's WebSocket connection (`chrome/ws.py`, RFC 6455) |
| `lock.dfy` | the Redis lock (`cluster.py`) |
| `pool.dfy`, `poolraces.dfy`, `poolbinds.dfy`, `poolstore.dfy`, `poolsteps.dfy` | the machine pool: rows, leases, records and the idle queue as steps, how a machine is leased twice, whom machines are leased to, the operations, and the operations as steps (`pool/registry.py`, `pool/leases.py`) |
| `turn.dfy` | ownership and recovery of a turn's row (`database/repositories/turn.py`) |
| `live.dfy` | the live stream of a turn (`agent/live.py`) |
| `client.dfy`, `resume.dfy` | the model client: lines, parts, continuation, retries (`agent/client.py`) |
| `cache.dfy` | the two-tier cache and its sweep (`github/cache.py`) |
| `history.dfy` | the stored conversation and its budget (`agent/segments.py`, `database/repositories/segment.py`) |
| `options.dfy`, `text.dfy` | a value that may be missing; a few string operations of Python |

Code that updates things in place is modelled by methods with loops and by
classes with fields.  Each such method is proved against a specification
function or relation, and the results below are proved about those.  Protocols
are state machines: `Leads` holds of the runs of a system, every interleaving of
its atomic steps included.

The main results:

* **Merge.**  The walk over two edit scripts cuts base into consecutive regions.
  The regions' images concatenate to ours and to theirs, and each region is
  untouched base, the only side that edited it, the common image, or a marked
  block with both.  Swapping the sides swaps the regions' sides and nothing
  else; this needs the absorption loop to compute the least closed cluster.
  Scripts that do not overlap merge without conflict into base with the union
  of both applied; and whatever the scripts, every line either of them writes is
  in the output.
* **Cron.**  `next_after` finds the least firing minute of its window, so iterating
  it enumerates exactly the firing minutes in order, and it fails exactly when
  none fires there.  That happens exactly for expressions bound to
  29 February with no such day left before the horizon; all others fire within
  366 days.
  Any expression printed from lists of values, ranges, stars and steps is parsed
  to the union of what they select.
* **Rendering.**  Deleting the inserted markers gives the text back; the texts of
  every entity's kind are written once, around exactly its own units, and nothing
  else is marked; the markers are well-bracketed if and only if any two clamped
  ranges are nested or disjoint.
* **WebSocket.**  Frames out decode to what was sent, in the shortest length
  form; frames in, however they are cut into chunks, give the messages in
  order, with a pong for every ping.
* **Lock.**  A holder that has not released and whose last successful set or
  extension is younger than its TTL owns the key, in every run, lost answers
  included; nobody else's late command touches its key.
* **Pool.**  Every transaction and every command on one key is a step of its own.
  All steps but one keep the invariant that no machine is leased twice and none
  that is there is in two takers' hands; the exception, the enqueueing at the end
  of `register` and `revive`, breaks it exactly when the machine is there and has
  been popped or leased meanwhile, and exactly then the run can go on to lease it
  twice.  In every run a gone machine stays gone, and every leased machine has its
  lease open until its destruction begins.  The operations of the store, grabs
  and reaps included, are runs of such steps.
* **Turn rows.**  A final row never runs again; a turn changes hands only after
  a seal or more than `stale_after` of silence, so an owner that keeps beating
  keeps it.
* **Buffers.**  The cache's counter, budget and order of use; the live stream's
  texts up to the counted cuts, and its other frames; the client's lines, parts
  and continuation; the history's de-duplication and budget.

## What the code does not promise

Where a natural claim is false of the code, the model follows the code, a lemma
gives an input for which the claim fails, and the exact condition is proved.

* "never fires" (`scheduler/cron.py:109`) is not always true: on 1 March 2096
  `0 0 29 2 *` is refused although it fires in 2104, because 2100 is not a
  leap year and the horizon is 1464 days (`CronFires.RefusedThoughItFires`,
  exact condition in `CronFires.FiresUnless`).
* The day rule is not the one of the crontab utility (IEEE Std 1003.1-2017, INPUT
  FILES), where a written-out month does not restrict the day of week: `0 0 1 1 1`
  fires on every Monday there, and only in January here
  (`CronStandard.MondaysOfJanuaryOnly`).  The two agree on every day exactly for
  the expressions of `CronStandard.RuleIsStandardIff`.
* "duration must be positive" and "more than a year is too far"
  (`scheduler/when.py:94-98`) are not enforced for a bare number, which means
  minutes: `0` is accepted, and so is any size
  (`When.BareNumbersAreUnchecked`).  Other texts are held to the year, but
  `0.5s` comes down to no seconds (`When.HalfASecond`), as exactly those do that
  add up to less than one (`When.AcceptedDurations`).
* So a recurring task can be accepted and stop after its first run: `every` 600000
  is stored as 36,000,000 seconds, which `advance` refuses (`When.LongIntervalStops`).  An accepted interval recurs
  unchanged exactly when it is positive and not a bare number above 527040
  (`When.IntervalRecursIff`).
* A set `lost` flag does not mean that the lock is gone: when the answer to a
  renewal is lost, the holder may give up a key it still owns
  (`Lock.LostMayStillOwn`).  It does exactly when the answer did not arrive and the
  holder was still fresh (`Lock.LostStillOwnsIff`).
* One machine can be leased to two users, because `revive` reads the row and
  enqueues the machine later, and neither it nor `_bind` looks again.  Either a
  taker pops the machine between the two writes of `revive`
  (`PoolRaces.LateReviveLeasesTwice`), or, with `revive` uninterrupted, a machine whose
  record has expired is revived between `zpopmin` and the `alive` check of
  `grab_idle` (`PoolRaces.PoppedExpiredLeasesTwice`).  A run keeps the invariant
  exactly when no machine that is there is enqueued while it is popped or leased
  (`Pool.RunIsSoundIff`), and the first such enqueueing is exactly one after which,
  without any further one, a machine can come to be leased twice
  (`PoolRaces.HarmfulIffLeasesTwice`).  For a caller it is enough that no revival of
  a machine is under way when it is popped and none begins until it is bound
  (`Pool.NoDoubleLeaseWhenCalm`); none begins as long as its record lasts.
* A reap can leave a lease open behind a gone machine, because it closes only the
  latest lease of a machine it ends: when the machine of the first of these runs
  dies, its earlier lease stays open (`PoolSteps.ReapLeavesLease`).  It does so
  exactly for the machines it ends that have two open leases
  (`PoolStore.LeaseLeftBehindIff`).
* `_pong` carries a payload exactly up to 125 bytes
  (`WebSockets.PongDecodesIffControl`); a longer ping, which section 5.5 of
  RFC 6455 forbids, gives a frame that announces something else, and from 256
  bytes on an error.
* Text shown by attempts that break before any attempt has ended without an
  error is not part of the reply, and the request is repeated from the start: when
  the first attempt shows "a" and breaks and the second says "b", the reply is "b"
  after "ab" was shown (`Resume.ShownButNotInReply`).  The reply says exactly what
  was shown if and only if no such attempt showed text
  (`Resume.ReplyIsWhatWasShownIff`).

## Model

| member | source | states |
|---|---|---|
| Merge.EditsRebuild | python/unsafie/github/merge.py:56-63 | from opcodes that tile both texts, the chunks are a script with gaps whose application to base gives the other text |
| Merge.GetChunks | python/unsafie/github/merge.py:56-63 | the loop over the opcodes collects that script |
| Merge.ReconstructSlice | python/unsafie/github/merge.py:66-76 | the loop gives the slice of base with exactly the given chunks applied |
| Merge.AbsorbClusters | python/unsafie/github/merge.py:143-156 | the absorption loop ends and reaches the extent `Absorb` specifies |
| Merge.AbsorbLeast | python/unsafie/github/merge.py:143-156 | that extent is the smallest cluster nothing left over begins inside of or touches |
| Merge.AbsorbSymmetric | python/unsafie/github/merge.py:143-156 | the extent does not depend on which side each pass tries first |
| Merge.StepFits | python/unsafie/github/merge.py:89-174 | every turn of the main loop takes whole chunks, moves forward in base, and leaves nothing pending before its end |
| Merge.MergeLines | python/unsafie/github/merge.py:79-179 | the output is the printed regions, and a conflict is reported exactly when some region is marked |
| Merge.MergeIsFaithful | python/unsafie/github/merge.py:79-179 | the regions tile base; ours-images concatenate to ours, theirs-images to theirs; every region is faithful, so no edit is lost or applied twice |
| Merge.MergeIsSymmetric | python/unsafie/github/merge.py:108-156 | swapping the sides flips every region: same unmarked output, halves of marked blocks exchanged, same verdict |
| MergeOutput.OutputIsImages | python/unsafie/github/merge.py:79-179 | the output is, region by region in the order of base, the lines both scripts leave there, or the lines "<<<<<<< yours", our patched lines, "=======", their patched lines, ">>>>>>> remote" |
| MergeOutput.EveryEditIsPrinted | python/unsafie/github/merge.py:79-179 | every line of every chunk of either script is in the output, conflict or not |
| MergeUnion.MergeOfCompatible | python/unsafie/github/merge.py:111-134 | without overlapping different chunks there is no conflict, and the output is base with any ordered union of both scripts applied |
| MergeUnion.MergeHasUnion | python/unsafie/github/merge.py:111-134 | such a union exists for every pair of compatible scripts |
| MergeFiles.ThreeWayMerge | python/unsafie/github/merge.py:26-46 | all branches of the file-level merge, text or not |
| MergeFiles.ThreeWayLaws | python/unsafie/github/merge.py:26-46 | an unchanged side yields the other, equal sides stay, and the verdict (and a clean text) does not depend on the order of the sides |
| MergeFiles.ThreeWayDisagreements | python/unsafie/github/merge.py:26-46 | what becomes of a file both sides changed, removed or added in different ways: which side wins, and for texts that every edit is there and a conflict is reported exactly when a region is marked |
| MergeFiles.Rebase | python/unsafie/github/merge.py:182-204 | every path of either side, and no other, gets its three-way merge with missing sides read as base; the three lists hold exactly the right paths in order |
| MergeFiles.RebasedPath | python/unsafie/github/merge.py:182-204 | what becomes of one path, in terms of the three trees |
| Cron.JumpSkipsNothing | python/unsafie/scheduler/cron.py:98-107 | no jump to the next midnight, hour or minute passes over a firing minute |
| Calendar.DaysBeforeIs | python/unsafie/scheduler/cron.py:96-102 | the days before a year: 365 for each one and one more for every fourth, but not every hundredth, but every four hundredth |
| Calendar.FourCenturies | python/unsafie/scheduler/cron.py:82-107 | 400 years are 146097 days, and dates and weekdays repeat after them |
| Calendar.KnownDays | python/unsafie/scheduler/cron.py:86 | 1 January 2000 is a Saturday, 29 February 2000 exists and that of 1900 does not, 5 January 2026 is a Monday |
| Cron.NextAfter | python/unsafie/scheduler/cron.py:95-110 | ends; returns the least firing minute after the given one, and an error exactly when none fires before the horizon |
| Cron.IterationEnumerates | python/unsafie/scheduler/cron.py:95-110 | iterating `next_after` gives exactly the firing minutes, in order, with none left out |
| CronStandard.DayIsStandardIff | python/unsafie/scheduler/cron.py:82-93 | on which days the day test agrees with the rule of the crontab utility (IEEE Std 1003.1-2017) |
| CronStandard.RuleIsStandardIff | python/unsafie/scheduler/cron.py:82-93 | it agrees on every day if and only if the day of week is starred, or all months are selected and day of month is not starred, month is, or all weekdays are selected |
| CronStandard.MondaysOfJanuaryOnly | python/unsafie/scheduler/cron.py:82-93 | the concrete expression and day for which it does not |
| CronFires.FiresWithinYear | python/unsafie/scheduler/cron.py:20 | every parsed expression not bound to leap days fires within 366 days |
| CronFires.LeapOnlyFires | python/unsafie/scheduler/cron.py:82-93 | an expression bound to leap days fires on 29 February only |
| CronFires.FiresUnless | python/unsafie/scheduler/cron.py:95-110 | the error is raised if and only if the expression is bound to leap days and neither this year's nor the next leap year's 29 February is in the window |
| CronFires.LeapDayWithinFourYears | python/unsafie/scheduler/cron.py:20 | with no skipped leap year in sight the horizon always holds a leap day |
| CronFires.RefusedThoughItFires | python/unsafie/scheduler/cron.py:108-110 | the concrete expression and date for which "never fires" is wrong |
| CronParse.FieldInRange | python/unsafie/scheduler/cron.py:41-68 | an accepted field selects a non-empty set of values in range, all of them when starred |
| CronParse.ParseField | python/unsafie/scheduler/cron.py:41-68 | accepts exactly when every comma-separated element is accepted; the set is the union of the elements' values, the flag says that some element is a star |
| CronParse.Parse | python/unsafie/scheduler/cron.py:113-136 | accepts exactly the well-formed expressions, aliases spelled out; weekday 7 is Sunday; the result has the ranges the search relies on |
| CronPrint.ElementOfPrint | python/unsafie/scheduler/cron.py:41-68 | a star, a value or a range of values, with or without a step, is accepted exactly when its values are in range and in order and the step positive, and selects exactly the values its steps reach |
| CronPrint.PrintedIsAcceptedIff | python/unsafie/scheduler/cron.py:113-136 | an expression printed from five lists of such elements is accepted exactly when all of them are |
| CronPrint.PrintedMeans | python/unsafie/scheduler/cron.py:113-136 | parsing it gives the union of what the elements of each list select, with 7 for Sunday too, and the stars |
| CronPrint.NamesAreNumbers | python/unsafie/scheduler/cron.py:4-10 | the twelve months and the seven days by name |
| CronPrint.ElementIsTidied | python/unsafie/scheduler/cron.py:44-45 | white space around an element and the case of its letters make no difference |
| CronPrint.AliasesAre | python/unsafie/scheduler/cron.py:11-19 | the seven aliases, in any case, stand for these five words |
| CronPrint.MondayAtNine | python/unsafie/scheduler/cron.py:95-110 | what "0 9 * * 1" parses to fires next, after the midnight Monday, 5 January 2026 begins with, at nine the same day |
| When.Duration | python/unsafie/scheduler/when.py:74-99 | the loop over the matches computes `DurationOf`, errors included |
| WhenAmounts.AmountsAddUp | python/unsafie/scheduler/when.py:74-99 | a text of amounts (digits, perhaps a point or comma and more digits, white space, a unit) with separators between them is accepted exactly when every unit is known and the sum is positive and at most 366 days; it comes to that sum, rounded down |
| WhenAmounts.UnitsAre | python/unsafie/scheduler/when.py:8-47 | the units and their seconds |
| WhenAmounts.DurationIsTidied | python/unsafie/scheduler/when.py:75 | white space around the text and the case of its letters make no difference |
| WhenAmounts.LettersHaveCase | python/unsafie/scheduler/when.py:75 | both alphabets, letter by letter |
| When.Humanize | python/unsafie/scheduler/when.py:168-177 | prints the non-zero days, hours and minutes, or the seconds below a minute |
| WhenAmounts.HumanizedTokens | python/unsafie/scheduler/when.py:168-177 | for days, hours below 24 and minutes below 60 these numbers are printed in this order, those of 0 left out |
| When.DurationOfHumanize | python/unsafie/scheduler/when.py:74-99 | parsing what was printed gives the seconds back below a minute and the whole minutes from there on, for every delay up to the limit |
| When.DurationOfSeconds | python/unsafie/scheduler/service.py:127 | a number of seconds as `advance` writes it comes back unchanged if it is from 1 to the limit, and is refused otherwise |
| When.IntervalRecursIff | python/unsafie/scheduler/service.py:53-63 | an accepted interval comes back unchanged from `advance` if and only if it is positive and not a bare number above 527040; any other ends the task |
| When.LongIntervalStops | python/unsafie/scheduler/service.py:119-133 | the concrete interval that is accepted and then refused |
| When.BareNumbersAreUnchecked | python/unsafie/scheduler/when.py:76-77 | a bare number is that many minutes whatever its size; within the limits exactly from 1 to 527040 |
| When.AcceptedDurations | python/unsafie/scheduler/when.py:93-99 | any other accepted text is at most a year, and comes down to no seconds exactly when its sum is below one |
| When.HalfASecond | python/unsafie/scheduler/when.py:93-99 | the concrete text that is accepted as positive and gives 0 |
| Render.Units | python/unsafie/telegram/render.py:31-37 | the loop gives one unit per UTF-16 code unit |
| Render.UnitsJoin | python/unsafie/telegram/render.py:31-37 | putting the units together gives the text back |
| RenderEntities.UnitsAreOfCharacters | python/unsafie/telegram/render.py:31-37 | the units of a text are those of its characters in order: one each, and an empty one behind every character outside the basic plane |
| Render.ToMarkdown | python/unsafie/telegram/render.py:55-90 | the dictionaries and the loop print exactly the tokens specified for the clamped entities |
| Render.DepthStep | python/unsafie/telegram/render.py:75-83 | adding up the edges gives the number of quotes around each unit |
| Render.DeletingMarkersGivesText | python/unsafie/telegram/render.py:78-90 | for any family of entities, deleting markers and quote prefixes gives the text back |
| Render.MarkersEnclose | python/unsafie/telegram/render.py:65-86 | every marked entity has an opening and a closing marker, and they enclose exactly its own units |
| Render.BracketsMatchIffLaminar | python/unsafie/telegram/render.py:65-86 | the markers are well-bracketed if and only if any two ranges are nested or disjoint |
| Render.MarkdownOfEntities | python/unsafie/telegram/render.py:55-90 | both of these for the spans of any list of entities |
| RenderEntities.SpanIsEntity | python/unsafie/telegram/render.py:40-73 | an entity is marked exactly when it has markers and holds a unit of the text, and the range marked is exactly the units it holds |
| RenderEntities.EntityIsMarked | python/unsafie/telegram/render.py:40-86 | the literal opening and closing text of every such entity is in the output, where exactly the units before it, and those up to its end, have been written |
| RenderEntities.EntityIsMarkedOnce | python/unsafie/telegram/render.py:73-80 | each of the two once |
| RenderEntities.MarkersAreOfEntities | python/unsafie/telegram/render.py:68-72 | nothing else is marked: entities of other kinds or without a unit add nothing |
| RenderEntities.OuterIsMarkedFirst | python/unsafie/telegram/render.py:73-80 | of entities that begin together the longer is marked first, of those with the same units the one listed first |
| RenderEntities.QuotedNewlines | python/unsafie/telegram/render.py:81-89 | a prefix follows a unit other than the last exactly when it is a newline inside a quote |
| RenderEntities.LastUnitIsBare | python/unsafie/telegram/render.py:84-89 | none follows the last unit, only closing markers do |
| Mention.TargetIs | python/unsafie/telegram/group.py:58-66 | the mention is the first entity marked as one whose own units are the name |
| Mention.Cut | python/unsafie/telegram/group.py:69-78 | besides the mention only white space before it and spaces after it are cut |
| Mention.CutIs | python/unsafie/telegram/group.py:69-78 | with text before it exactly the mention is cut out, else everything up to the first unit after it that is no space |
| Mention.CleanedIs | python/unsafie/telegram/group.py:80-92 | what is left is the text before and after the cut, or the whole text when that is nothing |
| Mention.RebasedBy | python/unsafie/telegram/group.py:80-91 | an entity the cut does not touch covers the same units at its new place |
| Mention.KeptIff | python/unsafie/telegram/group.py:82-91 | an entity is kept exactly when it is not the mention and none of its units is cut out |
| Mention.CutMention | python/unsafie/telegram/group.py:68-92 | exactly the untouched entities are kept, in order, each at its new place, inside the new text and on its own units |
| Mention.CleanMention | python/unsafie/telegram/group.py:48-97 | all branches: nothing to do, a marked mention, or the name taken out of the text |
| Wire.MaskTwice | python/unsafie/chrome/ws.py:93 | masking undoes itself (section 5.3 of RFC 6455) |
| Wire.LengthRoundTrip | python/unsafie/chrome/ws.py:84-91 | the length field is the shortest form and reads back as the length, for every length below 2^64 |
| WebSockets.KnownFrames | python/unsafie/chrome/ws.py:80-94 | frames and their bytes as section 5.7 of RFC 6455 gives them, masked and unmasked |
| WebSockets.ClientFrameDecodes | python/unsafie/chrome/ws.py:80-94 | for every opcode, payload below 2^63 bytes and mask the frame decodes under section 5.2 of RFC 6455 to them, FIN and mask bit set |
| WebSockets.WebSocket.SendFrame | python/unsafie/chrome/ws.py:80-94 | sends exactly such a frame |
| WebSockets.WebSocket.Pong | python/unsafie/chrome/ws.py:141-147 | sends one pong with the payload, or fails from 256 bytes on and sends nothing |
| WebSockets.PongDecodesIffControl | python/unsafie/chrome/ws.py:141-147 | the pong decodes to its payload if and only if that is at most 125 bytes |
| WebSockets.WebSocket.Read | python/unsafie/chrome/ws.py:149-163 | returns the next bytes of the stream whatever the chunks, and keeps the rest |
| WebSockets.WebSocket.ReadFrame | python/unsafie/chrome/ws.py:119-139 | reads the frame the stream begins with and leaves what follows it |
| WebSockets.WebSocket.RecvBytes | python/unsafie/chrome/ws.py:100-117 | for any chunks, outcome, rest of the stream and answered pings are those `Receive` specifies |
| WebSockets.ReceiveOther | python/unsafie/chrome/ws.py:100-117 | what a close, a ping that is too long, the end of the stream and any other opcode do: none of them adds to the message |
| WebSockets.ServerFrameParses | python/unsafie/chrome/ws.py:119-139 | a well-formed unmasked frame is read back as it was sent |
| WebSockets.ReceiveMessage | python/unsafie/chrome/ws.py:100-117 | receiving takes exactly the frames of one message: its fragments put together, its pings in order |
| WebSockets.ReceiveConversation | python/unsafie/chrome/ws.py:100-117 | successive calls return the messages in order, each with its own pings, and no byte is lost or read twice |
| Lock.Redis.SetNx | python/unsafie/cluster.py:192 | takes the key when it is absent or expired |
| Lock.Redis.Extend | python/unsafie/cluster.py:26-31 | prolongs the key of this token only |
| Lock.Redis.Release | python/unsafie/cluster.py:19-24 | deletes the key of this token only |
| Lock.MutualExclusion | python/unsafie/cluster.py:186-196 | in every run a fresh holder owns the key, so no two fresh holders coexist |
| Lock.OthersAreHarmless | python/unsafie/cluster.py:19-31 | no step of anybody else, stale holders included, changes a fresh holder's key |
| Lock.RenewalInTime | python/unsafie/cluster.py:233-245 | a renewal that arrives in time is granted and `lost` stays unset |
| Lock.FreeKeyIsTaken | python/unsafie/cluster.py:186-196 | a key nobody has is given to the first who asks, for exactly as long as asked |
| Lock.ReleaseFreesTheKey | python/unsafie/cluster.py:19-24 | in every run a release that arrives leaves the key free if the holder had it, and it can be taken at once; another's key it leaves alone |
| Lock.RefusedForGood | python/unsafie/cluster.py:242-245 | a holder that was refused never owns the key again |
| Lock.OwnsIffFresh | python/unsafie/cluster.py:174-178 | until `lost` is set a holder owns the key exactly as long as its last success is younger than its TTL |
| Lock.LostStillOwnsIff | python/unsafie/cluster.py:233-245 | in every run a renewal sets `lost` exactly when its answer is missing or the holder is stale, and leaves it the key exactly when the answer is missing and it was fresh |
| Lock.LostMayStillOwn | python/unsafie/cluster.py:238-241 | a run in which `lost` is set while the key is still owned |
| PoolStore.Store.Register | python/unsafie/pool/registry.py:25-52 | the new row, record and queue entry, and nothing else |
| PoolStore.Store.Revive | python/unsafie/pool/registry.py:55-65 | writes the row's state back for a machine that is still there |
| PoolStore.Store.Heartbeat | python/unsafie/pool/registry.py:68-78 | revives only a machine without a record; reports whether the machine is there |
| PoolStore.Store.GrabIdle | python/unsafie/pool/registry.py:105-115 | the machines before it in the order of the queue were dead and are forgotten; the next one is alive and taken, or there was none |
| PoolStore.Store.Forget | python/unsafie/pool/registry.py:139-152 | removes record and queue entry; marks the row gone once |
| PoolStore.Store.Bind | python/unsafie/pool/leases.py:184-206 | leases a machine that is there, in row, lease and record |
| PoolStore.Store.CloseLease | python/unsafie/pool/leases.py:256-269 | closes the latest open lease of the machine and no other |
| PoolStore.Store.Destroy | python/unsafie/pool/leases.py:249-253 | closes the lease, then forgets the machine |
| PoolStore.Store.CloseStrayLeases | python/unsafie/pool/leases.py:365-382 | closes exactly the open leases of gone machines |
| PoolStore.Store.Reap | python/unsafie/pool/leases.py:335-362 | nothing within the boot grace; after it, exactly the dead machines and those quiet and not held are ended, and exactly the leases of machines gone before and the latest open lease of each ended one are closed |
| PoolStore.LeaseLeftBehindIff | python/unsafie/pool/leases.py:335-382 | after a reap an open lease is left behind a gone machine if and only if the reap ended that machine and it had two open leases |
| PoolSteps.ReapLeavesLease | python/unsafie/pool/leases.py:350-355 | a run and a reap after it that leave one behind |
| PoolSteps.OperationsAreSteps | python/unsafie/pool/registry.py:25-102 | uninterrupted, register, revive, heartbeat and bind have the effect of their transactions and commands in order |
| PoolSteps.DestroyIsSteps | python/unsafie/pool/leases.py:249-269 | a destruction is a run: its lease is closed, then its keys deleted and its row marked |
| PoolSteps.GrabIsSteps | python/unsafie/pool/registry.py:105-115 | every outcome of a grab is that of a run of one taker: pops, each followed by keeping the machine, or by dropping and forgetting it |
| PoolSteps.ReapIsSteps | python/unsafie/pool/leases.py:335-382 | every outcome of a reap is that of a run: the stray leases, then one destruction after the other |
| Pool.StepKeepsInvIff | python/unsafie/pool/registry.py:55-152 | every transaction and command keeps queue, popped machines, rows and leases consistent, except exactly the enqueueing of a machine that is there and popped or leased |
| Pool.RunIsSoundIff | python/unsafie/pool/registry.py:55-152 | the invariant holds all along a run if and only if no step of it is such an enqueueing |
| PoolRaces.HarmfulIffLeasesTwice | python/unsafie/pool/leases.py:184-206 | after a run without one, an enqueueing is such a one if and only if some continuation without any further enqueueing leases a machine twice |
| Pool.NoDoubleLease | python/unsafie/pool/leases.py:93-105 | in a run without one no machine is leased twice, none that is there is popped by two takers, and every leased machine that is there has its open lease unless it is being destroyed |
| Pool.CalmIsHarmless | python/unsafie/pool/registry.py:55-115 | there is no such enqueueing when no registration or revival of a machine is under way as it is popped, and none begins until it is bound |
| Pool.NoDoubleLeaseWhenCalm | python/unsafie/pool/registry.py:55-115 | so in such a run no machine is leased twice, and none that is there is popped by two takers |
| Pool.RunKeepsBooks | python/unsafie/pool/leases.py:184-269 | in every run, harmful or not, a lease is of a leased or gone machine, and a leased machine has a lease, open unless its destruction has begun |
| Pool.StrayLeavesLive | python/unsafie/pool/leases.py:365-382 | whenever in any run the stray leases are closed, the open ones left are those of leased machines that are there, but for those being destroyed |
| Pool.GoneForGood | python/unsafie/pool/registry.py:145-151 | the row of a gone machine never changes again |
| Pool.LeasesAreKept | python/unsafie/pool/leases.py:201-203 | a lease keeps its machine and user, and a closed one stays closed |
| PoolBinds.LeasesAreBinds | python/unsafie/pool/leases.py:184-206 | in every run the leases are, in order, those of the machines that were bound while they were there, each to the user it was bound to |
| PoolBinds.RowsNameTheirUser | python/unsafie/pool/leases.py:184-206 | in every run a leased machine's row names the user of its last lease |
| PoolRaces.LateReviveLeasesTwice | python/unsafie/pool/registry.py:55-65 | a run in which a pop between the two writes of `revive` ends with two open leases of one machine |
| PoolRaces.PoppedExpiredLeasesTwice | python/unsafie/pool/registry.py:105-115 | a run in which an uninterrupted revival between `zpopmin` and `alive` does |
| TurnRow.Turn.constructor | python/unsafie/database/repositories/turn.py:126-163 | a new turn runs, with a heartbeat |
| TurnRow.Turn.Beat | python/unsafie/database/repositories/turn.py:259-265 | renews the heartbeat of a running turn only |
| TurnRow.Turn.Seal | python/unsafie/database/repositories/turn.py:267-273 | clears the heartbeat of a running turn only |
| TurnRow.Turn.Finish | python/unsafie/database/repositories/turn.py:183-193 | sets the final status, the finish time and no heartbeat |
| TurnRow.Turn.ClaimForRecovery | python/unsafie/database/repositories/turn.py:315-352 | claims, refuses or fails the turn as specified |
| TurnRow.Turn.ReapStale | python/unsafie/database/repositories/turn.py:354-378 | fails a silent turn that is out of recoveries or ancient |
| TurnRow.RunIsSound | python/unsafie/database/repositories/turn.py:183-193 | in every run a final row has a finish time and no heartbeat and never runs again, and recoveries stay within the limit |
| TurnRow.OwnersAreSeparated | python/unsafie/database/repositories/turn.py:330-349 | when another instance takes over, the owner had sealed the turn or been silent for more than `stale_after` |
| TurnRow.LiveOwnerKeepsTurn | python/unsafie/database/repositories/turn.py:330-378 | in every run in which an owner's beats are never further apart than the silence others allow, no claim and no reaping takes the turn from it |
| TurnRow.ClaimedIff | python/unsafie/database/repositories/turn.py:315-352 | in every run a recovery is granted exactly to a running turn that is no sub-agent's, was recovered less than three times, and is the claimer's own, sealed, or silent for too long; what the claim leaves behind otherwise |
| TurnRow.ReapedIff | python/unsafie/database/repositories/turn.py:354-378 | in every run a sweep fails exactly the running turns that are silent for too long and either recovered three times or created over an hour ago |
| TurnRow.FinishIsKept | python/unsafie/database/repositories/turn.py:183-193 | the row keeps the last final status and its time, whatever is tried with it later |
| Live.Stream.AppendText | python/unsafie/agent/live.py:71-88 | joins the text to the last frame of its block, or pushes a clipped frame |
| Live.Stream.PushFrame | python/unsafie/agent/live.py:90-97 | queues, drops or refuses a frame |
| Live.Stream.EncodeFrame | python/unsafie/agent/live.py:99-107 | gives the frame the next number and counts its bytes |
| Live.Stream.BatchFrames | python/unsafie/agent/live.py:109-123 | writes the frames from the front, numbered on from the last batch without gaps, and stops at the ceiling with one note |
| Live.RunIsFaithful | python/unsafie/agent/live.py:68-123 | for any interleaving, below the ceiling and with nothing refused, the frames of a block hold its text in order but for exactly the counted cuts |
| Live.RunLosesNone | python/unsafie/agent/live.py:68-123 | with nothing refused every emitted frame is written or waits, once and in order, below the ceiling; those that end the turn are even beyond it |
| Live.RefusedWhenFull | python/unsafie/agent/live.py:90-97 | nothing is refused as long as the buffer has room |
| Live.RunIsPacked | python/unsafie/agent/live.py:71-88 | two neighbouring frames of one block that wait never fit into one |
| Live.BatchWrites | python/unsafie/agent/live.py:99-123 | a batch writes as many frames as it may or as there are, and counts the lengths of their bodies; at the ceiling it stops, writes the note and keeps what ends the turn |
| Live.RunRespectsCeiling | python/unsafie/agent/live.py:90-123 | no note as long as the bytes written are below the ceiling; once a frame reaches it exactly one note, and only `turn.end` frames after it |
| Client.Lines | python/unsafie/agent/client.py:182-193 | the lines depend only on the bytes, not on the chunks |
| Client.LinesAre | python/unsafie/agent/client.py:182-193 | the lines are what stands between line feeds; an empty last one is left out |
| Client.RstripIs | python/unsafie/agent/client.py:191 | each loses its trailing carriage returns and nothing else |
| Client.MergeParts | python/unsafie/agent/client.py:251-271 | the loop computes `Merge` |
| Client.MergeIdempotent | python/unsafie/agent/client.py:251-271 | merging twice is merging once |
| Client.MergeOfPieces | python/unsafie/agent/client.py:251-271 | merging piecewise and then the pieces is merging the whole |
| Client.MergeKeeps | python/unsafie/agent/client.py:251-271 | text, thoughts and signed parts survive merging, in order |
| Client.MergeJoinsRuns | python/unsafie/agent/client.py:251-271 | merging cuts the parts into runs of unsigned texts of one kind, each as long as can be, and makes of each its first part with all their texts |
| Client.Builder.Feed | python/unsafie/agent/client.py:134-165 | all parts are kept, text and thoughts are theirs, the last finish reason counts, and exactly the new text is shown |
| Client.CandidatesAdd | python/unsafie/agent/client.py:134-165 | every candidate adds its parts, and the last one with a finish reason sets it |
| Client.ContinuationAddsOneTurn | python/unsafie/agent/client.py:274-291 | when the last role is not "model" or "assistant", the next body is the original one plus a turn of role "model" with the merged parts; when it is, the merged parts are put after those of the last turn; nothing else changes |
| Client.ContinuedTurnSaysTheReply | python/unsafie/agent/client.py:285-289 | that turn says what was there before and what the reply says, once and in order |
| Resume.Once | python/unsafie/agent/client.py:294-370 | one attempt adds its parts to the reply so far |
| Resume.Send | python/unsafie/agent/client.py:373-456 | which attempts are made, what each sends, what is shown, and the outcome: the first attempt that settles the matter, or what is left after the last |
| Resume.FirstVerdict | python/unsafie/agent/client.py:389-449 | what a first attempt comes to, by its error, its finish reason and what it says |
| Resume.SecondBody | python/unsafie/agent/client.py:389-449 | what is sent after it: the same again, or the continuation of what it said |
| Resume.OnlyAttempt | python/unsafie/agent/client.py:373-456 | with no attempt left a reply without a finish reason is returned exactly when it says anything |
| Resume.ShownIsDroppedThenReply | python/unsafie/agent/client.py:389-449 | the text shown is what was dropped followed by the reply's text |
| Resume.ReplyIsWhatWasShownIff | python/unsafie/agent/client.py:389-449 | with some attempt that ends without an error, the reply says what was shown if and only if no attempt that broke before the first such one showed text |
| Resume.ShownButNotInReply | python/unsafie/agent/client.py:389-449 | two concrete attempts for which it does not |
| Cache.Store.RememberItem | python/unsafie/github/cache.py:116-126 | order and counter after remembering an item |
| Cache.EvictDropsShortestPrefix | python/unsafie/github/cache.py:124-126 | eviction drops exactly the shortest oldest prefix that makes the rest fit, and never the last item |
| Cache.RememberIsGood | python/unsafie/github/cache.py:116-126 | sizes stay within the budget, keys distinct, contents right; the new item stays |
| Cache.RememberIs | python/unsafie/github/cache.py:116-126 | too large an item changes nothing, one that is there is put last, and for a new one only as many of the oldest go as have to |
| Cache.RememberKeepsOrder | python/unsafie/github/cache.py:116-126 | memory is in the order of last use, so what is evicted was used before everything that stays |
| Cache.Store.Get | python/unsafie/github/cache.py:137-150 | the content of the key, or None exactly when neither tier holds it |
| Cache.Store.Put | python/unsafie/github/cache.py:152-156 | both tiers after a put, the write failing or not |
| Cache.Store.StoreFile | python/unsafie/github/cache.py:158-161 | the file alone |
| Cache.Store.Missing | python/unsafie/github/cache.py:128-135 | exactly the uncached keys, each once, in order of first mention |
| Cache.Sweep | python/unsafie/github/cache.py:63-88 | goes through the shortest oldest prefix that frees enough; files that cannot be deleted stay and do not count |
| Cache.SweepLeavesEnough | python/unsafie/github/cache.py:78-87 | when every deletion succeeds at most 80 % of the cap is left |
| Cache.FreedAndKept | python/unsafie/github/cache.py:78-87 | what was freed and what could not be deleted are together all that was looked at |
| Cache.GoalIs | python/unsafie/github/cache.py:78 | the goal is 80 % of the cap, rounded down |
| History.NormalizeSegment | python/unsafie/agent/segments.py:33-45 | the loops compute `Normalize` |
| History.NormalizeLaws | python/unsafie/agent/segments.py:26-45 | idempotent; the result ends with the assistant, or is empty exactly when the assistant said nothing |
| History.NormalizedIs | python/unsafie/agent/segments.py:26-45 | what is normalized is the segment up to the last message of the assistant |
| History.Load | python/unsafie/agent/segments.py:66-74 | the fold over the segments is de-duplication of their concatenation |
| History.DedupeOfPieces | python/unsafie/agent/segments.py:66-74 | de-duplicating when saving and again when loading is de-duplicating the whole |
| History.DedupeIs | python/unsafie/agent/segments.py:33-45 | de-duplication leaves a list without repetitions as it is, takes a repeated message for one, and ends without repetitions |
| History.Lineage | python/unsafie/database/repositories/segment.py:54-77 | keeps the longest run of newest segments within the budget, but always the newest |

## Left out

- Everything behind a library or the network: Telegram, GitHub, Gemini over HTTP, SSH, the browser, SQL, telemetry, logging and settings.  Redis and the database are explicit state with atomic steps.
- `difflib`: its opcodes are a parameter with a contract (they tile both texts, equal blocks are equal, no two changing blocks in a row), and so are `is_text`, decoding, splitting and joining.
- Where conflict markers land in the joined text when a last line has no newline; everything is stated on lists of lines.
- MergeFiles.Rebase: takes the sorted list of paths as a parameter, because only the order of its lists depends on the sorting.
- Time zones, daylight saving and years beyond 9999, where Python's dates end; years are unbounded here.
- CronParse.Parse: models white space, digits and letter case of ASCII text only, because Python's Unicode classes are tables of a library.
- When.Duration: computes with reals instead of floats, and takes digits and white space to be ASCII; `absolute` and `zone` are not modelled.
- Rendering and mentions work on code units; decoding errors of lone surrogates are not modelled.
- Mention.CleanMention: taking an unmarked name out of a text is a parameter, because it is one regular expression.
- WebSockets.WebSocket.Read: read timeouts and socket errors in the middle of a frame are not modelled; the handshake, `close` and the masking key's randomness are left out (any four bytes will do).
- The waiting loop of `acquire`, and `lock` and `try_lock` around it; time is the Redis server's clock, and a holder's last success counts from the moment the server executed it.
- Pool: the queue of waiting users and their limits (`take`, `_order`), `release` by alias, machine tokens and channels, and the CI supervisor.  Expiry of a record is a step of its own, not a timer.
- Pool.NoDoubleLease: holds of runs without the enqueueing described above, because the code does not hold of others.
- Pool.GoneForGood: and all results on runs of the pool, take a database transaction as one step.  `_bind` selects the row without locking it, so a transaction that marks the machine gone between its select and its commit is not modelled.
- PoolStore.Store.GrabIdle: and the other methods of the store, describe operations that nothing interrupts; the interleavings are those of `Pool`, and `PoolSteps` connects the two.
- PoolStore.Store.Reap: has the held and the quiet machines as parameters.
- Live.RunIsFaithful: assumes that `emit` and `append` use different kinds, as the callers do; writing to Redis and its failures are left out.
- Cache: disk errors are flags, the touching of files on reading is left out, and contents are assumed to be determined by their keys, as the addresses of the store are.
- Cache.Sweep: takes the sorted listing as a parameter and computes 80 % of the cap with reals.
- Client and Resume: usage counters, credentials and their switching, the decoding of server-sent events, and the bookkeeping of thought signatures next to the parts.
- TurnRow: `record`, results, sub-agents other than their exclusion from recovery, and the queries.  Nothing is claimed about executors after a seal, which the window between seal and finish allows to overlap.
- The agent loop, `vfs.py`, the formats of `bloat2md`, the command line and the web front end.
