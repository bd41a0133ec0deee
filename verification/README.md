# Verified models of cw's state protocols

cw coordinates coding sessions through files: an event inbox with lock-free followers, a channel
event bus, a changelog that is merged structurally, state-file locks, and several small persisted
records that must survive a crash at any point. This project models those parts in Dafny and proves
what they promise over every input, every run and every reachable state. `dafny verify
dfyconfig.toml` checks all of it.

## Modules

- `Common`: options, distinct and rising sequences, and what a filter keeps, by position.
- `Lines`, `EventsTail`, `Inbox`, `Prune`, `Poll`, `Follow`, `FollowSkip`: the event inbox. A file is a byte
  sequence, its complete part followed by a torn tail. `EventsTail` holds the backward block scan,
  `Inbox` the read past an offset with its anchor, `Prune` the pruning writer with its crash points,
  `Poll` one poll and what successive polls deliver, `Follow` the step system in which stat, locate,
  open and read of a poll interleave with appends of any bytes, rewrites and mtime changes, and
  `FollowSkip` the run in which it loses events.
- `EventBus`, `ReverseRead`: the channel bus as a step system at lock granularity, and the bounded
  reverse read that recovers the next offset.
- `ChangelogParse`, `ChangelogText`, `ChangelogMeaning`, `ChangelogInsert`, `ChangelogOrder`, `Changelog`,
  `ChangelogRebuild`: from the line parser, what it finds by position, and the inserter with its
  Keep-a-Changelog order up to the three-way rebuild with its self-checks.
- `StrictSchema`, `StrictMeaning`, `StrictDocument`: the strict-mode JSON Schema walk over raw JSON,
  the meaning of schemas, and documents with `$defs`.
- `LockGuard`: the per-thread held stack, and threads that request, get and give back locks.
- `AttentionLatch`, `AttentionBatch`, `AttentionStream`: the dedupe latch, one step over a batch
  against one event at a time, and the stream with its crashes and restarts.
- `Recovery`: the write-ahead marker of the legacy recovery.
- `Aiderignore`, `UsageReset`, `LockHold`: the generated ignore file, the usage-limit reset and the
  lock-hold sidecar.

## Assumptions

- Events, JSON and pydantic decoding are tables from bytes to what they decode to. A line ends at
  `\n`; the other line separators of `str.splitlines` do not occur inside one. A raise while parsing
  is `None`.
- A needle holds no newline, recorded event ids are new, and the follower's lookup meets its cursor's
  id on event lines only, with the needle in them (`Poll.NamedByEvents`).
- Each step of the follower is trusted with what it relies on (`Follow.Trusted`). An idle stat sees
  every rewrite, which leaves out the residual the source accepts at src/cw/events.py:754-758. A read
  that finds the anchor reads the generation it was taken from; that is a hypothesis of this model
  about the one file the read opens, and `FollowSkip.SkippingRun` shows that it is needed.
  `Follow.AppendsAreTrusted` needs neither.
- Each lock file has one rank and there is one sessions lock file (`LockGuard.Lawful`).
- Clocks, process ids and files are inputs; an atomic write may fail before or after the replace.
- The text of a changelog bullet is its sequence of lines, and its normalised text the words of those lines
  joined by newlines (`ChangelogMeaning.NormalizedIs`), which the source joins again by single spaces.
- An attention cursor is the number of inbox events up to it; the inbox only grows there. Of a batch
  the lines are flushed one by one, and a crash may come between any two.
- A UTC offset is a function of the wall clock, read as the source reads it: the second pass of a repeated
  hour (`fold=1`).

## Where the code and its documentation differ

- src/cw/events.py:749-752 leaves the blind spot of the inode to the anchor. The read does not
  compare the inode of the file it opened with the one it knows. When a prune comes between stat and
  open and the new file ends its first lines in the same bytes, the read skips them for good:
  `FollowSkip.SkippingRun`. `FollowSkip.ReadExact` says which reads skip.
- src/cw/events.py:333-337 says that a crash loses nothing and a retry at worst archives twice. An archive
  write cut short leaves a torn line, and the retry's first event is glued to it: `Prune.TornRetry`.
  `Prune.EventStore.Prune` gives the exact condition.
- src/cw/event_bus.py:109-120 takes the largest offset of one read so that interleaved writers are safe.
  Whatever the chunk size, the first line of the file is never in the same read as a later record:
  `ReverseRead.FirstLineIsMissed`, `ReverseRead.NextOffsetExact`.
- src/cw/event_bus.py:269-271 says that an event is never duplicated. `EventBus.DuplicateRun` is a run
  in which it is; `EventBus.Delivery` gives the exact condition.
- src/cw/changelog_rebuild.py:428-433 refuses a rebuild that is not idempotent.
  `ChangelogRebuild.SecondRebuildNeverRefuses` shows that this branch is never taken.
- src/cw/openai_strict_schema.py:42-63 walks a property map as if it were a schema node, so a property
  called `default` disappears and stays required. `StrictSchema.WalkIsStrict` and
  `StrictDocument.IdempotentExact` say that this is the only way the walk misses the strict form.
- src/cw/openai_strict_schema.py:5-6 wants every object node closed. A dictionary and a bare object have no
  property map and stay open; `StrictMeaning.StrictExactly` says that these are the only ones.
- src/cw/attention_stream.py:216-232 applies all clears of a batch before any admit, and the latch
  evicts at 512 keys. A page, its clear and the same page again in one batch print one line instead of
  two (`AttentionBatch.LostLine`); `AttentionBatch.BatchingExact` says when one step over a batch equals
  one event at a time, and `AttentionBatch.FullLatchExample` that it needs room in the latch.
- src/cw/codex_legacy_recovery.py:901-919 completes without looking at `pending`; the save then refuses.
  `Recovery.FinalizeExact` gives the exact case, an intent left over while nothing is unresolved, and
  `Recovery.StuckIntent` a run that reaches it.
- src/cw/local_runner.py:433-435 rules out directory-level patterns. A manifest entry that is a
  directory around a tracked file is one, with the final slash src/cw/plan_files.py:163 keeps or without
  it; `Aiderignore.ManifestPromise` gives the exact condition.
- src/cw/exceptions.py:169 promises a reset strictly in the future and under seven days out. Both halves
  fail when the clock changes in between (`UsageReset.SpringForwardPasses`,
  `UsageReset.FallBackOverruns`); `UsageReset.ResolveUtcExact` gives the exact conditions, and
  `UsageReset.ArmedFromReset` what the consumer makes of it.

## Model

| member | source | states |
|---|---|---|
| Lines.EndOfLastMeaning | src/cw/events_tail.py:76-106 | the specification of both scans: the end of the last hit is the end of a whole line that is a hit, and no later line is one |
| Lines.SplitJoins | src/cw/events.py:588-591 | splitting loses no byte and leaves no newline inside a line |
| EventsTail.MatchInLines | src/cw/events_tail.py:59-73 | searching needle hits from the right and confirming each by the id its line names finds the last such line |
| EventsTail.TakeBlock | src/cw/events_tail.py:89-99 | the block joined to the carry is kept whole, or cut at its last newline while none was seen, and keeps the scan's invariant |
| EventsTail.ScanBackward | src/cw/events_tail.py:76-106 | for every file and every positive block size the result is the end of the last complete line with the needle that names the id, model-valid or not; the torn tail never matches |
| EventsTail.LocateAfterEvent | src/cw/events_tail.py:109-140 | the offset and anchor just behind the last complete line with the needle that names the event, or none; behind the last line that names it where all of them hold the needle |
| Inbox.ParseLinesLoop | src/cw/events.py:440-490 | the parse loop with its torn-tail tolerance computes the ids of the model-valid lines or raises |
| Inbox.ParseLinesMeaning | src/cw/events.py:440-490 | a read raises exactly when a line is invalid or a malformed one has text behind it; otherwise the ids are those of all event lines, in order |
| Inbox.IdsFrom | src/cw/events.py:539-600 | the events of a file are those before any line boundary followed by those after it |
| Inbox.ReadAfterPrefix | src/cw/events.py:539-600 | a read behind a prefix of the file returns exactly the complete lines after it, and its offset and anchor describe a prefix again |
| Inbox.ReadExactly | src/cw/events.py:539-600 | byte by byte: refused, with nothing read, exactly when the bytes behind the offset are not the anchor; otherwise the lines are the bytes up to the last newline, and the new anchor the last 256 bytes |
| Prune.PartitionSplits | src/cw/events.py:229-247 | kept and pruned events are an order-preserving split of the inbox, by the cutoff or as the newest N |
| Prune.CutoffCanKeepEarlier | src/cw/events.py:229-235 | a cutoff can drop an event and keep an earlier one |
| Prune.InterleavesMultiset | src/cw/events.py:299-365 | an order-preserving split neither loses nor invents an event |
| Prune.EventStore.Prune | src/cw/events.py:299-365 | with lines of unknown type, malformed text, a torn tail and a write that raises anywhere: when it succeeds and what inbox and archive then are; a prune that raises keeps the inbox; an archiving one that succeeds loses an event exactly when the archive ended in a torn line and something was pruned; otherwise nothing is lost at any crash point |
| Prune.EventStore.Record | src/cw/events.py:89-134 | the event is recorded exactly when the inbox did not end in a torn line; with its in-band prune, swallowed when it raises, every recorded event is on disk at every crash point unless the archive is torn |
| Poll.PruneReadsTheSame | src/cw/events.py:311-317 | a prune raises on the same inboxes as a reader and sees the same events |
| Prune.EventStore.Archive | src/cw/events.py:349-351 | a batch appended to the archive up to the write that raises; the inbox and everything archived before stay at every crash point |
| Prune.SwapExact | src/cw/events.py:349-358 | after the swap nothing is lost exactly when the archive was not torn or nothing was pruned |
| Prune.TornRetry | src/cw/events.py:333-337 | an archive write cut short and a retry leave the event in neither file |
| Poll.FastRefinesSlow | src/cw/events.py:603-633 | for every readable inbox that names the cursor at most once and on event lines only, resolving it by the backward scan and by the full read returns the same events and the same follow state |
| Poll.LocatedAt | src/cw/events_tail.py:109-140 | the located prefix consists of whole lines whose last event is the cursor's |
| Poll.FirstPoll | src/cw/events_follow.py:62-68 | the first poll returns everything after the seed cursor and leaves the follower at the end |
| Poll.PollGrown | src/cw/events.py:818-866 | a poll after any append, whole or partial, returns exactly the newly completed events |
| Poll.PollExactly | src/cw/events.py:818-866 | the three ways of a poll by the bytes of the file: a rewrite that shows in inode, size, or stat and bytes is resolved from the cursor, an unchanged stat delivers nothing, otherwise the lines after the offset are delivered and the cursor is the last of them |
| Poll.ExactlyOnce | src/cw/events.py:818-866 | between rewrites, however appends are split, successive polls deliver the complete lines in order, each once |
| Poll.ReplayAfterKeep | src/cw/events.py:798-815 | after a keep-N prune that shows in the inode, the size, or the stat and the anchor, the next poll returns exactly the survivors never delivered |
| Poll.ReplayAfterCutoffRepeats | src/cw/events.py:798-815 | after a cutoff prune that removed only the cursor's event an earlier one is delivered again |
| Poll.ResolveStart | src/cw/events.py:603-633 | the resolution with its real scan and parse loops computes the specification |
| Poll.InboxFollower.Poll | src/cw/events_follow.py:43-70 | a poll moves the follower to the specified state, whose bytes `Poll.PollExactly` gives, or leaves it untouched when parsing raises |
| Follow.StepInv | src/cw/events.py:798-866 | every micro-step of a poll and every append, rewrite or touch keeps the follower's invariant |
| Follow.RunInv | src/cw/events.py:798-866 | the invariant holds throughout every run whose steps are trusted with what they rely on |
| Follow.AtLeastOnce | src/cw/events.py:818-866 | at every moment of every such run, an event recorded before the last successful poll and still in the inbox was delivered or lay at or before the start cursor |
| Follow.AppendsAreTrusted | src/cw/events.py:723-768 | in runs without rewrites the stat and the anchor need no hypothesis |
| Follow.QuietResolve | src/cw/events.py:603-633 | the separate steps of a resolution, undisturbed, are the atomic one |
| Follow.QuietPoll | src/cw/events.py:818-866 | the separate steps of a poll, undisturbed, are the atomic one, and the follower is then in sync |
| FollowSkip.ReadExact | src/cw/events.py:539-600 | an anchored read that continues from an offset leaves an event uncovered exactly when one before that offset is neither covered nor read again |
| FollowSkip.SkippingRun | src/cw/events.py:818-866 | a run with faithful stats and a changed inode in which the anchor collides in one read and two events still in the inbox are never delivered |
| FollowSkip.CollisionExists | src/cw/events.py:539-600 | lines whose anchors collide exist |
| EventBus.StepInv | src/cw/event_bus.py:165-296 | every step of a broadcaster or a subscriber at lock granularity keeps the bus invariant |
| EventBus.Delivery | src/cw/event_bus.py:259-296 | once nothing is in flight each logged event from the cursor on was put once or twice, and twice exactly when its broadcast stood between append and snapshot at registration |
| EventBus.AtMostTwice | src/cw/event_bus.py:289-296 | at no moment does a queue hold an event more than twice |
| EventBus.RacingMeaning | src/cw/event_bus.py:259-279 | the racing set of a registration is the logged events whose broadcast had not taken its snapshot |
| EventBus.DuplicateRun | src/cw/event_bus.py:259-296 | a run in which one event reaches one queue twice |
| EventBus.LogRises | src/cw/event_bus.py:183-193 | a log whose offsets rise at the start rises throughout every run |
| EventBus.RestartIsAStart | src/cw/event_bus.py:147-163 | a restart with a next offset above the log is a valid start, so offsets stay unique |
| EventBus.RestartFromFile | src/cw/event_bus.py:242-257 | over the log file of any run with rising offsets the next offset the reverse read recovers, at any chunk size, is a valid start, so offsets stay unique across restarts |
| EventBus.ChannelBus.Broadcast | src/cw/event_bus.py:289-296 | one log record, one put per subscriber, nothing else changed |
| EventBus.ChannelBus.SubscribeWithCursor | src/cw/event_bus.py:259-279 | the new queue holds the log from the cursor on, position by position in file order; other queues are untouched |
| EventBus.BacklogInOrder | src/cw/event_bus.py:195-219 | the replay is the log at rising positions, exactly those of the offsets from the cursor on; over a rising log it rises |
| EventBus.ReplayInLogOrder | src/cw/event_bus.py:259-279 | in every run, at every moment, what a queue got by replay stands in log order and starts at the registration's cursor |
| EventBus.ReplaysFromLastAck | src/cw/event_bus.py:259-287 | in every run a registration replays from the offset its client acked last before it subscribed |
| EventBus.QueuesGrow | src/cw/event_bus.py:259-296 | in every run a queue only ever gets more at its end |
| EventBus.ChannelBus.Ack | src/cw/event_bus.py:281-287 | the client's next subscribe replays exactly what is logged from the acked offset on, also when that lies behind an earlier ack; every other client replays what it did |
| EventBus.ChannelBus.Unsubscribe | src/cw/event_bus.py:175-181 | only the queue is removed, the others keep their order |
| ReverseRead.GroupsAreTheLines | src/cw/event_bus.py:79-106 | for every file and chunk size the groups joined are the decodable non-blank lines, last first |
| ReverseRead.LineGroupsReverse | src/cw/event_bus.py:79-106 | the reading loop yields those groups |
| ReverseRead.LastOffset | src/cw/event_bus.py:109-141 | the largest offset of the first group that holds one |
| ReverseRead.LastReadIsSuffix | src/cw/event_bus.py:109-141 | the last read that holds a record is the end of the file's offsets, and empty only if there are none |
| ReverseRead.TailIsLastRead | src/cw/event_bus.py:79-141 | what the scan stops at, in terms of the file alone: the records that start behind the last chunk boundary with a record behind it |
| ReverseRead.LoadOffset | src/cw/event_bus.py:242-257 | the scan with its loops computes the next offset as the file alone determines it |
| ReverseRead.NextOffsetExact | src/cw/event_bus.py:242-257 | above the last record, and above every offset of the file exactly when a largest one starts in the last read that holds a record, which rising offsets guarantee |
| ReverseRead.FirstLineIsMissed | src/cw/event_bus.py:109-141 | for every chunk size, a log whose first line holds the largest offset and that holds another record recovers too small an offset |
| ReverseRead.InterleavedLogIsMisread | src/cw/event_bus.py:109-141 | such a log of two interleaved writers, for every chunk size |
| ChangelogParse.ItemParser.FeedLine | src/cw/changelog_rebuild.py:215-234 | one line moves the parser object to the specified state |
| ChangelogParse.ParseLines | src/cw/changelog_rebuild.py:241-245 | feeding all lines computes the parsed block |
| ChangelogParse.FeedAllBehind | src/cw/changelog_rebuild.py:193-238 | what was collected before never influences what is collected next |
| ChangelogParse.FeedItem | src/cw/changelog_rebuild.py:215-234 | the lines of a bullet, fed in any state, close what was open and become the open item verbatim |
| ChangelogParse.ParsedItems | src/cw/changelog_rebuild.py:193-245 | every parsed item has the shape of a bullet under a stripped subsection name |
| ChangelogMeaning.ParseMeaning | src/cw/changelog_rebuild.py:184-245 | by position: the items are the bullets, one each and in order, each with the subsection it stands in and its lines up to the last that is not blank; the prose is the text that belongs to none |
| ChangelogMeaning.WordsMeaning | src/cw/changelog_rebuild.py:79-86 | the words of a text with the blanks between them give the text back, and no word is empty or holds a blank |
| ChangelogMeaning.NormalizedIs | src/cw/changelog_rebuild.py:79-86 | the words of a bullet are the words of its lines joined by newlines |
| ChangelogMeaning.StripMeaning | src/cw/changelog_rebuild.py:215-234 | stripping takes blanks off both ends and nothing else |
| ChangelogText.SplitLinesJoin | src/cw/changelog_rebuild.py:138-151 | text written from clean lines reads back as those lines, newline and trailing flag |
| ChangelogText.JoinLinesSplit | src/cw/changelog_rebuild.py:138-151 | text that splits is recovered byte for byte from its lines |
| ChangelogText.SplitLinesClean | src/cw/changelog_rebuild.py:138-151 | accepted line endings leave no carriage return or line feed inside a line |
| ChangelogText.OneConvention | src/cw/changelog_rebuild.py:138-151 | a text is split exactly when it is lines without breaks joined by one newline throughout |
| ChangelogInsert.Insert | src/cw/changelog_rebuild.py:318-348 | the three insertion branches with their scans compute the specified splice |
| ChangelogInsert.LastText | src/cw/changelog_rebuild.py:310-315 | the backward scan finds the last non-blank line |
| ChangelogInsert.InsertParses | src/cw/changelog_rebuild.py:193-245 | for every body without a `## ` line and every parsed item, in all three branches, re-parsing yields the old items in their order with exactly that item behind its subsection, prose unchanged |
| ChangelogInsert.InsertAppends | src/cw/changelog_rebuild.py:318-348 | every other subsection keeps its items in order, the bullet's own keeps them around the bullet, and has it last where no two subsections share a name |
| ChangelogOrder.InsertedText | src/cw/changelog_rebuild.py:318-348 | the bullet stands behind an empty line at the end of its subsection's text, a new heading between empty lines in front of the next heading or at the end; every other line keeps its place |
| ChangelogOrder.CreatedInPlace | src/cw/changelog_rebuild.py:45-55 | a created heading is ahead, in Keep-a-Changelog order, of the next heading and of none before it; a subsection that exists gets no second heading |
| ChangelogOrder.InsertKeepsOrder | src/cw/changelog_rebuild.py:318-348 | headings in Keep-a-Changelog order stay in it |
| ChangelogInsert.InsertKeepsShape | src/cw/changelog_rebuild.py:318-348 | an insertion adds no `## ` line and no line break |
| ChangelogInsert.InsertSubLines | src/cw/changelog_rebuild.py:318-348 | an insertion repeats a raw subsection heading exactly when the body already did |
| ChangelogInsert.InsertAllAppends | src/cw/changelog_rebuild.py:392-394 | after all insertions every subsection holds what it held and then the branch's bullets in order |
| ChangelogInsert.GreedyDecides | src/cw/changelog_rebuild.py:351-353 | taking the first match decides the subsequence relation |
| ChangelogInsert.IsSubsequence | src/cw/changelog_rebuild.py:351-353 | the iterator loop answers whether the needle is the haystack with elements left out |
| ChangelogInsert.InsertAllThins | src/cw/changelog_rebuild.py:362-364 | the old body is the new one with lines left out |
| Changelog.ParseHeadings | src/cw/changelog_rebuild.py:100-107 | the loop collects the version headings with their lines |
| Changelog.VersionMeaning | src/cw/changelog_rebuild.py:36 | a version heading is `## [`, text without a closing bracket that is not empty, and `]` |
| Changelog.HeadsInOrder | src/cw/changelog_rebuild.py:100-107 | the headings are the heading lines, all of them, in order |
| Changelog.SectionEnd | src/cw/changelog_rebuild.py:110-114 | the loop finds the next `## ` line or the end |
| Changelog.ParseDocInv | src/cw/changelog_rebuild.py:154-177 | what a parsed document guarantees about its lines, headings and cut |
| Changelog.ParseDocExactly | src/cw/changelog_rebuild.py:154-177 | a text parses exactly when it is not blank, uses one newline throughout and has exactly one [Unreleased] heading; its section runs from there to the next `## ` line |
| Changelog.WriteParse | src/cw/changelog_rebuild.py:398-406 | a document written out reads back as itself |
| ChangelogRebuild.WholeItems | src/cw/changelog_rebuild.py:365-370 | the items of a whole document are those before, in and after [Unreleased] |
| ChangelogRebuild.SelfCheckExact | src/cw/changelog_rebuild.py:356-378 | the self-check passes exactly when the inserted texts are pairwise different and main repeats no raw subsection heading and no version heading |
| ChangelogRebuild.SelfCheckMeaning | src/cw/changelog_rebuild.py:356-378 | what the self-check asks of any two documents: the same lines around [Unreleased], main's text among the result's in order, each inserted bullet's words in exactly one item, no repeated heading |
| ChangelogRebuild.RebuildExact | src/cw/changelog_rebuild.py:381-407 | with something to insert, the rebuild succeeds exactly under those three conditions, every refusal is the ambiguous one, and the text reads back as the placed document |
| ChangelogRebuild.InsertedExactly | src/cw/changelog_rebuild.py:264-307 | an item is inserted exactly when it stands in the branch's [Unreleased], the merge base's has none with its subsection and words, and main has its words nowhere, and skipped when main has them; both in the branch's order |
| ChangelogRebuild.BranchEdits | src/cw/changelog_rebuild.py:248-307 | which refusal changed headings, touched released sections, added or removed prose, removed, repeated and loose bullets get, in the order they are looked at; with nothing new main is returned as it is |
| ChangelogRebuild.UnreadableRefused | src/cw/changelog_rebuild.py:381-385 | a text that does not parse is refused as unparseable |
| ChangelogRebuild.RebuildKeeps | src/cw/changelog_rebuild.py:381-407 | everything outside [Unreleased], the prose and the version headings stay, and each subsection holds main's bullets and then the branch's |
| ChangelogRebuild.RebuildIdempotent | src/cw/changelog_rebuild.py:381-407 | a rebuild over its own result inserts nothing and returns it |
| ChangelogRebuild.SecondRebuildNeverRefuses | src/cw/changelog_rebuild.py:410-434 | the final idempotence check never fires |
| ChangelogRebuild.InsertOwn | src/cw/changelog_rebuild.py:392-397 | the loop over the inserted items and the padding compute the new body |
| StrictSchema.WalkIsStrict | src/cw/openai_strict_schema.py:42-72 | the walk over an encoded schema is the encoding of its strict form exactly when no object has a property called `default` |
| StrictSchema.NullableRead | src/cw/openai_strict_schema.py:32-39 | the nullable test on raw JSON sees exactly an `anyOf` with a null branch |
| StrictMeaning.FillValid | src/cw/openai_strict_schema.py:42-63 | every closed value of a schema, null-filled, is valid under the strict form, and dropping those nulls gives the value back |
| StrictMeaning.RestoreValid | src/cw/openai_strict_schema.py:42-63 | every value valid under the strict form, with its nulls on optional fields dropped, is a closed value of the source |
| StrictMeaning.UnlistedRequirement | src/cw/openai_strict_schema.py:49-63 | an object that requires a name it does not list has no closed value, and its strict form no longer asks for the name |
| StrictMeaning.StrictExactly | src/cw/openai_strict_schema.py:3-12 | every object node of the strict form is closed and requires all its properties exactly when every object of the schema has a property map |
| StrictMeaning.DictionaryStaysOpen | src/cw/openai_strict_schema.py:42-63 | a dictionary of strings is left as it is and accepts any key |
| StrictMeaning.StrictIdempotent | src/cw/openai_strict_schema.py:20-29 | the strict form is its own strict form |
| StrictDocument.DocumentIsStrict | src/cw/openai_strict_schema.py:20-29 | with `$defs`, the transform is the strict document exactly when no property and no definition is called `default` |
| StrictDocument.IdempotentExact | src/cw/openai_strict_schema.py:42-72 | a second walk over a schema changes nothing exactly when no property is called `default` |
| StrictDocument.DocumentIdempotentExact | src/cw/openai_strict_schema.py:20-29 | the same for a whole document, over its root and every definition not itself called `default` |
| StrictDocument.DefaultPropertyIsLost | src/cw/openai_strict_schema.py:49-63 | a property called `default` stays required and is no longer a property |
| StrictDocument.DefaultPropertyExample | src/cw/openai_strict_schema.py:49-63 | the smallest schema on which the transform goes wrong |
| LockGuard.ThreadState.OrderMessage | src/cw/_lock_guard.py:183-202 | no message exactly when no leaf and no lock of greater rank is held; the first leaf is reported first, else the first lock of greater rank |
| LockGuard.ThreadState.Enter | src/cw/_lock_guard.py:234-248 | re-entry is always refused, disorder only under enforcement; a refusal pushes nothing; discipline is kept |
| LockGuard.ThreadState.Exit | src/cw/_lock_guard.py:252-254 | the first equal lock is removed and discipline is kept |
| LockGuard.OnlyTopMatters | src/cw/_lock_guard.py:183-202 | on a disciplined stack the order check depends on the innermost lock only |
| LockGuard.AllowedExactly | src/cw/_lock_guard.py:169-202 | on a disciplined stack a lock is let through exactly when the stack stays disciplined with it |
| LockGuard.RunInv | src/cw/_lock_guard.py:169-254 | in every run stacks hold distinct paths, no lock has two owners, and under enforcement ranks do not fall and a leaf is on top |
| LockGuard.CyclesAreState | src/cw/_lock_guard.py:169-254 | under enforcement every cycle of waiting threads is made of STATE locks only |
| LockGuard.NoCycleWithSingleStates | src/cw/_lock_guard.py:169-254 | there is no cycle while no thread has two STATE locks |
| LockGuard.NeverWaitsForItself | src/cw/_lock_guard.py:169-180 | with or without enforcement no thread waits for itself |
| LockGuard.CycleReachable | src/cw/_lock_guard.py:217-231 | two locks of one rank below LEAF can deadlock under enforcement, any two without it, in a run that is lawful when the two locks are |
| LockGuard.StateCycleReachable | src/cw/_lock_guard.py:217-231 | a lawful run under enforcement that ends in a cycle of two STATE locks |
| AttentionLatch.KeyRoundTrip | src/cw/attention_watch.py:283-287 | a key splits into the type, client and slot it was made from when they hold no bar |
| AttentionLatch.Latch.Admit | src/cw/attention_watch.py:317-327 | pages exactly when the key is new or its fingerprint changed; the page becomes the newest entry of its key, the others keep their order, and the oldest go beyond 512 |
| AttentionLatch.Latch.Clear | src/cw/attention_watch.py:329-365 | a resolving event removes exactly the keys it matches and keeps the order of the others |
| AttentionLatch.ClearExactly | src/cw/attention_watch.py:329-365 | in terms of the two events: a page's entry goes exactly when the clients agree and the event names its slot by lane, by ticket, by ticket for a liveness page, or is a tick for the stale-loop page |
| AttentionLatch.PagesExactly | src/cw/attention_watch.py:63-88 | which types page, liveness only in a surfaced bucket, and never a resolving event |
| AttentionLatch.PagesWhenNew | src/cw/attention_watch.py:317-327 | an event pages exactly when the latch does not hold its key with its fingerprint |
| AttentionLatch.StaysSound | src/cw/attention_watch.py:317-365 | keys stay distinct and at most 512 |
| AttentionBatch.AdmitClearCommute | src/cw/attention_watch.py:317-365 | an admit and a clear of another key commute while the latch has room |
| AttentionBatch.BatchingChangesNothing | src/cw/attention_stream.py:216-232 | one step over a batch gives the lines and latch of one event at a time when no event clears a key paged earlier and the latch has room |
| AttentionBatch.BatchingExact | src/cw/attention_stream.py:216-232 | where the latch has room, the lines and the latch are those of one event at a time if and only if each key cleared behind a page is paged again behind the clear, with another fingerprint than before it, and its first page is not suppressed |
| AttentionBatch.LostLine | src/cw/attention_stream.py:216-232 | a page, its clear and the same page again: taken one by one the second page is a line, in one batch it is not |
| AttentionBatch.LostLineExample | src/cw/attention_stream.py:216-232 | such a batch for every latch with room: a timeout, its ticket's transition, the same timeout |
| AttentionBatch.FullLatchExample | src/cw/attention_watch.py:325-326 | with a full latch batching changes the latch although no clear matches an earlier page |
| AttentionStream.Watcher.Step | src/cw/attention_stream.py:210-232 | the two passes of one step compute the batch's lines and latch and mark it unsaved |
| AttentionStream.ArmStartsAt | src/cw/attention_stream.py:178-187 | an arm starts behind the given event, else at the saved cursor, else at the newest event, keeps the saved latch, and saves that pair at once |
| AttentionStream.BatchStands | src/cw/attention_stream.py:216-232 | if every latch entry stands before a flushed batch, so do every entry after it and every page it considered |
| AttentionStream.SavedPairIsPrinted | src/cw/attention_stream.py:343-378 | at every point of every run with crashes the saved cursor and latch are the result of batches that cover the inbox up to it, each flushed whole as one stretch of the output, in the order they were read |
| AttentionStream.NothingSkipped | src/cw/attention_stream.py:343-378 | every inbox position from the start to the saved cursor was read by one saved batch, and if in scope there its page stands: flushed by itself or by an earlier line with its key and fingerprint, or latched at the start, and cleared by no batch since |
| AttentionStream.ChosenIsReread | src/cw/attention_stream.py:178-187 | a line chosen and not yet printed is the event of exactly one inbox position, and a crash and a resume read that position again |
| Recovery.OutcomeConsistent | src/cw/codex_legacy_recovery.py:288-334 | recording an outcome keeps the marker consistent and turns an intent into an outcome |
| Recovery.PendingConsistent | src/cw/codex_legacy_recovery.py:337-356 | recording an intent keeps the marker consistent and replaces what was known of the session |
| Recovery.OutcomeExactly | src/cw/codex_legacy_recovery.py:288-334 | the recorded outcome is the one given, last and alone for its session; every other outcome, entry and intent stays in order; an unresolved entry carries the given client, ticket and reason; the counts are numbers of outcomes |
| Recovery.PendingExactly | src/cw/codex_legacy_recovery.py:337-356 | the intent is last, and all else known of its session is dropped |
| Recovery.CountsAddUp | src/cw/codex_legacy_recovery.py:276-285 | the five buckets add up to the sessions scanned |
| Recovery.MarkerStore.Save | src/cw/codex_legacy_recovery.py:263-273 | an inconsistent marker is refused, and a failed write leaves the old or the new one on disk |
| Recovery.MarkerStore.RecordOutcome | src/cw/codex_legacy_recovery.py:288-334 | never refused on an open marker; the saved outcome is the one given and the counts are right; on a failed write memory is restored and the disk holds the old or the new marker |
| Recovery.MarkerStore.RecordPending | src/cw/codex_legacy_recovery.py:337-356 | the same for an intent |
| Recovery.MarkerStore.ReconcilePending | src/cw/codex_legacy_recovery.py:805-863 | the loop settles the intents in order up to the first failed write; the disk is as it was, as memory is, or one outcome ahead, and no session is lost from either |
| Recovery.ReconcileLosesNothing | src/cw/codex_legacy_recovery.py:805-863 | a kept intent stays pending, every other one becomes an outcome, no other session changes |
| Recovery.ReconciledRows | src/cw/codex_legacy_recovery.py:805-863 | each decided intent becomes the outcome with its client, ticket and decided disposition, the others stay intents, no other outcome changes |
| Recovery.FinalizeExact | src/cw/codex_legacy_recovery.py:901-919 | the client is covered exactly when nothing of it is unresolved; completion is set exactly when nothing is unresolved and every client is covered, and the save refuses exactly when an intent is then left |
| Recovery.StuckIntent | src/cw/codex_legacy_recovery.py:901-931 | a run with a crash behind an intent that ends in a finalize whose own save refuses, the marker still open |
| Recovery.MutatedIsRecorded | src/cw/codex_legacy_recovery.py:642-674 | over all runs with crashes and failed saves every mutated session is on disk as exactly one of pending or outcome, and the marker loads |
| Recovery.DiskIsLastWord | src/cw/codex_legacy_recovery.py:288-356 | over all runs the outcome or intent on disk for a session is that of the last write about it |
| Recovery.DiskAddsUp | src/cw/models/codex_legacy_recovery.py:123-190 | over all runs the marker on disk has counts that are the numbers of its outcomes, one row per session and list, an unresolved entry exactly for each failed or writer-live outcome with its client and ticket, and distinct covered clients |
| Recovery.CompletionMeansDone | src/cw/codex_legacy_recovery.py:901-931 | a completed marker has nothing unresolved or pending and every mutated session has a final outcome |
| Recovery.CompletionIsFinal | src/cw/codex_legacy_recovery.py:977-986 | after completion no step changes the marker or touches a session |
| Aiderignore.EscapeGitWildMatch | src/cw/local_runner.py:394-407 | the replacement passes one after the other do what one pass over the characters does |
| Aiderignore.BackslashFirst | src/cw/local_runner.py:390-391 | with backslash last the escapes themselves are escaped |
| Aiderignore.EscapedIsLiteral | src/cw/local_runner.py:394-407 | an escaped path matches itself and what lies under it, with or without a final slash, and nothing else |
| Aiderignore.UnescapedGoesWrong | src/cw/local_runner.py:397-403 | an unescaped bracket segment matches another file and not itself |
| Aiderignore.IgnoredExactly | src/cw/local_runner.py:410-468 | behind any earlier content a tracked file is ignored exactly when the manifest names neither it nor a directory around it |
| Aiderignore.ManifestPromise | src/cw/local_runner.py:410-468 | ignored if and only if not in the manifest holds for a tracked file exactly when it is named or no manifest entry, with or without a final slash, is a directory around it |
| Aiderignore.DirectoryEntryOpens | src/cw/plan_files.py:155-167 | the entries `some/dir/` and `some/dir` both let an unnamed file of the directory through |
| Aiderignore.IgnoredMeaning | src/cw/local_runner.py:428-435 | a path is ignored exactly when a line applies to it and the last such line is no negation |
| Aiderignore.TrailingBlankIsLost | src/cw/local_runner.py:394-407 | a tracked path that ends in a blank is not ignored, since its line loses the blank |
| UsageReset.OrdinalOrder | src/cw/exceptions.py:260-261 | dates compare as their ordinals do, across months, leap years and years |
| UsageReset.DateOf | src/cw/exceptions.py:233-264 | every day from January 1 of year 1 on is exactly one date |
| UsageReset.BeforeYearIs | src/cw/exceptions.py:233-264 | the days before a year, with a leap day every fourth year but for centuries that are no multiple of 400 |
| UsageReset.WeekdaysGoRound | src/cw/exceptions.py:245-248 | the first day is a Monday and each day is followed by the next weekday |
| UsageReset.KnownDays | src/cw/exceptions.py:245-248 | 8 March 2026 is a Sunday and 31 October 2026 a Saturday |
| UsageReset.CandidateIsFirst | src/cw/exceptions.py:233-264 | the candidate is the first named day from today on; without one no named day lies within seven days |
| UsageReset.ResolveExact | src/cw/exceptions.py:192-264 | on the wall clock a reset resolves exactly when the first named day at its clock time lies strictly within the next seven days, and to that moment |
| UsageReset.ResolveUtcExact | src/cw/exceptions.py:169-264 | for every zone: when a reset resolves and to which UTC instant, which is strictly future exactly when the clock is not put forward by the wall-clock distance, and under seven days out exactly when it is not put back by what is left to seven days |
| UsageReset.SameOffsetKeepsPromise | src/cw/exceptions.py:169-264 | with the same offset then and now the instant is strictly future and under seven days out |
| UsageReset.SpringForwardPasses | src/cw/exceptions.py:215-230 | at 1:59 before a spring change "resets 2:30am" resolves to an instant in the past |
| UsageReset.FallBackOverruns | src/cw/exceptions.py:233-264 | before an autumn change a reset resolves to an instant more than seven days out |
| UsageReset.ClockReadsOnce | src/cw/exceptions.py:202-208 | every minute of the day has exactly one twelve-hour reading |
| UsageReset.ClockIs | src/cw/exceptions.py:202-208 | the minutes of an am and of a pm reading, twelve included, and when a reading is refused |
| UsageReset.ArmedFromReset | src/cw/dispatch_state.py:290-313 | for every zone, form and back-off the armed deadline is strictly future and at most seven days or the back-off away; it is the parsed reset exactly when the clock change keeps that strictly future and within seven days, else the flat window |
| UsageReset.ConsumerCatchesBoth | src/cw/dispatch_state.py:290-313 | on both failing examples the flat window is used |
| LockHold.SelectLines | src/cw/_lock_hold.py:383-413 | the loop with its running size computes the selected lines |
| LockHold.RecordByRecord | src/cw/_lock_hold.py:383-413 | over any batches each record is written exactly when the file before it is below the cap, or below the ceiling and the record at warn level, with the markers of the thresholds it reaches |
| LockHold.FileKept | src/cw/_lock_hold.py:383-413 | over any batches one cap marker exactly when the cap is reached, one ceiling marker exactly when the ceiling is, every record where the policy takes it |
| LockHold.OnlyWarnBehindCap | src/cw/_lock_hold.py:388-394 | behind the cap marker only warn-level records, behind the ceiling marker nothing |
| LockHold.FileBounded | src/cw/_lock_hold.py:383-413 | the file stays below the ceiling plus one record and two markers |
| LockHold.ChunkLines | src/cw/_lock_hold.py:416-431 | the chunks hold the bytes in order, are cut only between lines, one over the limit is a single line, and none could have taken the next line |

## Left out

- AttentionBatch.BatchingExact: is stated where the latch has room for every page of the batch; AttentionBatch.FullLatchExample shows that without room the condition on clears does not suffice, and the exact condition there is not given.
- Poll.ReplayAfterKeep: leaves out a rewrite with the same inode, no shorter and with the same bytes before the offset, which the poll cannot see.
- StrictMeaning.RestoreValid: needs every required name to be a property, as pydantic writes it; StrictMeaning.UnlistedRequirement shows what happens otherwise.
- UsageReset.ResolveUtcExact: takes the offset of a wall-clock moment as given; that `zoneinfo` picks it is not modelled.
- Prune.EventStore.Record: that an append is cut short is a crash, after which a store starts with a torn inbox; a torn last line that happens to be whole JSON is not modelled.
- The in-place update of nested dictionaries in the schema transform: it works on a deep copy, so the model is on values and captures no aliasing; `required` is a list in some order.
- Schema keywords other than type, enum, `$ref`, anyOf, items, properties, required, additionalProperties, default and `$defs`, boolean schemas, enumerations of anything but strings, and a property map whose own `type` entry is a bare string.
- A latch key restored from a damaged record with fewer than three bars, on which the source raises; a client or slot that itself holds a bar is split where the source splits it.
- The attention stream over a pruned inbox (the follower's replay is modelled in `Poll` and `Follow`), the stuck scan, rendering, and the owner pid check.
- The prior status and stage kept in recovery outcomes, and the decisions that classify a session; a decision is an arbitrary input.
- The act on a session in the recovery: an abstract step that may mutate, fail or crash.
- Aiderignore.ManifestPromise: is stated for paths that do not end in a blank; Aiderignore.TrailingBlankIsLost shows one that does.
- AttentionLatch.ClearExactly: is stated for types, clients and slots without a bar, at which the source splits keys.
- Sorting of the generated ignore lines, since the result holds for any order; unanchored patterns and negated bracket expressions of earlier content; paths git quotes.
- Dates beyond the year 9999, where the source raises.
- The usage-limit regular expressions: the model starts from a matched fragment.
- Concurrent writers of one sidecar file, its expiry and its reader.
- Real file I/O, `flock`, threads, clocks, network servers, command-line and rendering code.
