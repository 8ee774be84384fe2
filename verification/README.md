# Grown, verified

Models of the parts of Grown that hold real algorithms and protocols, written in Dafny, with proofs
about every input, every run or every interleaving. `dafny verify dfyconfig.toml` checks everything.

What is modelled:

- **Calendar** (`Civil`, `GoTime`, `Recurrence`, `Expansion`, `Loops`, `LoopsEnd`, `LoopsAstray`, `Series`,
  `RuleText`, `EventList`, `EventEdit`, `EditShown`). A time is a civil day and nanoseconds into it, at a
  fixed offset; Go's 64-bit ints, times and durations are in `GoTime`, wrapping and saturating as Go's do.
  `Recurrence.Occurs` says without iterating which days carry an occurrence of a rule; `Query.Expected` is
  the answer owed for a window. The five loops of `expandEvent` are methods over the rounds of `Loops`;
  `LoopsEnd` says for every rule, start, duration and window when a loop ends with exactly that answer, and
  bounds on INTERVAL under which it always does; `LoopsAstray` has the rules with which it does not. Rules
  are read from text and written back. `EventList` is the merge of overrides in `ListEvents`, `EventEdit`
  the events table and the this-event edit, `EditShown` the way from an edit to the listing.
- **Collaboration hub** (`HubWire`, `HubObjects`, `HubRuns`, `HubAlone`, `HubMissed`, `HubRegistry`).
  `HubRuns` is the room of one document as a state machine over the steps between which goroutines can
  interleave: join, read the log, send the replay, drain, receive, queue to one target, finish the
  broadcast, append, answer, leave. `HubObjects` is the same code as objects whose methods run undisturbed,
  and `HubAlone` shows that the steps run alone do what the objects do. `HubRegistry` takes `addPeer` and
  `removePeer` apart, two locked sections each.
- **Alexa skill** (`Shuffle`, `Queue`, `Skill`). The generator and the seed hash on 64-bit words, the
  shuffle in place on an array, the rebuilt order, and the handlers as functions of request and library.
- **vCards** (`Text`, `VCard`, `VCardText`, `VCardRoundTrip`, `VCardDomain`, `VCardBreaks`, `VCardExact`).
  The parser and the printer as methods over strings, and the exact set of contact lists that survive.
- **Drive** (`DriveTables`, `DriveRuns`, `DriveSafety`, `DriveAlone`, `DriveService`, `DriveAgrees`,
  `DrivePaging`). Tables as values with each statement's WHERE clause and the foreign keys' cascades; every
  interleaving of uploads, replacements, copies, restores, deletions and purges, where each effect may fail
  and each request may stop between two effects; the handlers as methods of an object, a restore's steps
  shown to do what its handler does; and paging.
- **Converter** (`ConvertRuns`, `ConvertParts`). Semaphore, running counter and the compare-and-swap loop of
  the peak, one atomic operation a step; the in-place sort and the bounded buffer.
- **Picture export** (`LuaText`, `ExportImages`), **comment threads** (`Comments`) and the **protection
  cache** (`ProtectionGate`).

`Sorting`, `Text` and `Wrappers` hold what several of them share. `sort.Slice` is known by its contract
only: some sorted permutation.

Where the code and its own comments disagree, the model follows the code:

- The comment on `addMonthsClamped` (internal/calendar/recurrence.go:240-242) has a series on the 31st
  land on the last day of each short month. The loop goes on from the clamped date, so the day never
  comes back: `Series.MonthlyDrift` says exactly when the two differ, `Series.MonthlyDriftExample` shows
  January 31 followed by March 28.
- `RestoreFileVersion` snapshots first "so no history is lost" (internal/drive/service.go:454-455). That
  holds one request at a time (`DriveAlone.ContentIsKept`); two requests on one file can lose content with
  every effect succeeding (`DriveSafety.RaceLosesUpload`, `DriveSafety.RestoreLosesContent`), and
  `DriveSafety.LosesExactlyWhen` names the two steps that can. One is deleting the restored version's row
  because it "is now current" (internal/drive/service.go:492): by then another upload may be.
- `maxOccurrences` is there for pathological rules (internal/calendar/recurrence.go:29-31), but bounds the
  slice and not the loop. INTERVAL is any positive 64-bit number, and Go's times wrap around: with a DAILY
  interval that is a multiple of 2^57 the loop stands still, and ends never or with a thousand copies
  (`LoopsAstray.StandstillExactlyWhen`, `NeverEnds`, `ThousandCopies`); a WEEKLY one walks backwards
  (`LoopsAstray.WeekComesAgain`). Recurring events longer than 292 years are cut short
  (`LoopsAstray.LongEventsExactlyWhen`).
- `ListEvents` keeps one exception for each second (internal/calendar/service.go:161-172), while an edit looks
  for its own by the exact time (internal/calendar/repository.go:309-311).
  `EventEdit.UpsertKeepsUniqueExactlyWhen` says when one override for each second remains.
- `removePeer` drops a room once it is empty (internal/docs/collab.go:96); a connection that fetched the
  room before and is inserted after ends up in a room of its own (`HubRegistry.DocumentSplits`).
- `ListChildren` calls its paging "not stable across concurrent inserts" (internal/drive/repository.go:145-147).
  The order and the token are both the id, so a row that matches throughout is shown exactly once
  (`DrivePaging.EachRowOnce`), and any other exactly when it matched as its page was read.
- `ListEvents` speaks of skipping cancelled occurrences (internal/calendar/service.go:188-191), but the rows
  that would say so are trashed and never listed; no claim is made about cancellation.

## Model

| member | source | states |
|---|---|---|
| Civil.DayNumberOrder | internal/calendar/recurrence.go:230-261 | day numbers order dates as year, month and day do |
| Civil.CivilRoundTrip | internal/calendar/recurrence.go:230-261 | every valid date is recovered from its day number, for negative years too |
| Recurrence.DaysInMonthIsLength | internal/calendar/recurrence.go:259-261 | day 0 of the next month is the last day of this one, leap years included |
| Recurrence.MonthsOnExact | internal/calendar/recurrence.go:243-257 | by the calendar, a day of exactly the month asked for, clamped to its length, at the same clock time, for every integer shift |
| Recurrence.AddMonthsClampedExact | internal/calendar/recurrence.go:243-257 | the code's result, for every shift a Go int holds: that, or 2^64 months before it exactly when month plus shift overflows |
| Recurrence.StartOfWeekAtIsSunday | internal/calendar/recurrence.go:229-232 | midnight of the Sunday on or before the time |
| Recurrence.SetClockKeepsDay | internal/calendar/recurrence.go:235-238 | the one's date with the other's clock |
| Recurrence.RankCounts | internal/calendar/recurrence.go:130-131 | COUNT is judged by the number of occurrences since the series start, wherever the window is |
| Recurrence.ExpectedIsFirstThousand | internal/calendar/recurrence.go:29-31 | the specified answer is strictly increasing and exactly the first thousand occurrences that pass COUNT and UNTIL and overlap the window |
| GoTime.AddDays64Twice | internal/calendar/recurrence.go:135 | adding days to a 64-bit time twice is adding their sum, wrapping included |
| Loops.ExpandDaily | internal/calendar/recurrence.go:134-144 | the loop returns what its rounds leave, whenever they end |
| Loops.ExpandWeekdays | internal/calendar/recurrence.go:146-160 | the same, Monday to Friday, INTERVAL ignored |
| Loops.ExpandWeekly | internal/calendar/recurrence.go:162-192 | the same for the nested loops over weeks and their days, with the return from within |
| Loops.ExpandMonthly | internal/calendar/recurrence.go:194-204 | the same for months, the shortened day carried forward |
| Loops.ExpandYearly | internal/calendar/recurrence.go:206-216 | the same for years, February 29 rolling over |
| LoopsEnd.NearRound | internal/calendar/recurrence.go:134-216 | a round of any loop, while no step has left the range of a time, takes the state the specification gives to the next one, or ends with exactly the answer owed |
| LoopsEnd.ComesOutExactlyWhen | internal/calendar/recurrence.go:103-220 | for every rule, start, duration and window: the loop ends with exactly the answer owed if and only if it ends and no round after a step out of range shows an instance |
| LoopsEnd.TameComesOut | internal/calendar/recurrence.go:134-216 | with an interval within stated bounds (10^14 days, 10^13 weeks, 10^12 months, 10^11 years) it always does, whatever start, duration, window, COUNT, UNTIL and BYDAY |
| LoopsEnd.SortInstances | internal/calendar/recurrence.go:222-225 | some permutation sorted by start |
| Expansion.InstancesOrdered | internal/calendar/recurrence.go:219-225 | instances start at least a day apart, so the final sort is the identity |
| LoopsEnd.ExpandEvent | internal/calendar/recurrence.go:103-220 | if the loop ends, the result is what it leaves, sorted; a non-repeating event is returned when it overlaps |
| LoopsEnd.ExpansionIsRight | internal/calendar/recurrence.go:103-220 | whatever is returned is the declarative answer if and only if the loop ends with it |
| LoopsEnd.TameExpandsRight | internal/calendar/recurrence.go:103-220 | and so it is for every event with a rule within the bounds, or with none |
| LoopsAstray.PlainComesOutExactlyWhen | internal/calendar/recurrence.go:134-216 | for the loops without weeks the exact condition in terms of the loop variable: a thousand instances are due, or it is stopped before a step out of range leads back into the window |
| LoopsAstray.DailyMark | internal/calendar/recurrence.go:135 | the k-th value of the DAILY loop variable in closed form: k intervals on, wrapped around |
| LoopsAstray.StandstillExactlyWhen | internal/calendar/recurrence.go:134-144 | a DAILY interval that is a multiple of 2^57 comes out right if and only if COUNT, UNTIL or the window makes the first instance the last, or COUNT ends the loop and the instance is not shown |
| LoopsAstray.NeverEnds | internal/calendar/recurrence.go:134-144 | without COUNT, and the instance not shown, no number of rounds ends that loop |
| LoopsAstray.ThousandCopies | internal/calendar/recurrence.go:134-144 | and if it is shown, it is returned a thousand times |
| LoopsAstray.WeekComesAgain | internal/calendar/recurrence.go:162-192 | a WEEKLY interval for which seven times it wraps to -2: the walk goes back and shows the start's day twice |
| LoopsAstray.LongEventsExactlyWhen | internal/calendar/recurrence.go:112-118 | instances keep the length of their event if and only if it fits a 64-bit duration, or there is nothing to show |
| LoopsAstray.LongEventCutShort | internal/calendar/recurrence.go:112-118 | a recurring event from 1700 to 2000 ends in April 1992 |
| Series.MonthlyOccurrence | internal/calendar/recurrence.go:195 | by the calendar, occurrence k lies k * INTERVAL months after the start, on the least of the start's day and the months visited |
| Series.ShortestVisitedIsMinimum | internal/calendar/recurrence.go:195 | that least day is a minimum over exactly the months visited |
| Series.MonthlyDrift | internal/calendar/recurrence.go:240-257 | an occurrence is on the start's day clamped to its own month if and only if no month visited before was shorter still |
| Series.MonthlyDriftExample | internal/calendar/recurrence.go:240-257 | January 31 goes to February 28 and then March 28 |
| Series.AllLeapMeans | internal/calendar/recurrence.go:207 | the recursive check of leap years means every year visited |
| Series.YearlyRollsOver | internal/calendar/recurrence.go:207 | a February 29 series stays on it exactly while every year visited is a leap year, and is on March 1 from then on |
| Series.WindowIndependence | internal/calendar/recurrence.go:119-131 | expanding a sub-window gives at least what the wider expansion has there, and exactly that when the wider one has fewer than a thousand |
| RuleText.ParseRecurrence | internal/calendar/recurrence.go:47-97 | each field is set by the last part giving it a valid value; blank and unknown rules do not repeat; the interval is at least 1 and a Go int |
| RuleText.ParseDays | internal/calendar/recurrence.go:72-78 | the set of the days a BYDAY value names, unknown codes skipped |
| RuleText.WrittenReadsBack | internal/calendar/recurrence.go:12-26 | every rule written in the documented form is read back as that rule |
| EventList.ListEvents | internal/calendar/service.go:161-205 | as a multiset the listing is every override once and every instance that replaced none, whatever the expansions are; instances in order, the first of a key replaced in place |
| EventList.RightExpansionsListed | internal/calendar/service.go:161-205 | with the expansions owed: every override once and every instance without an override once, replaced ones in place |
| EventList.EmitInstances | internal/calendar/service.go:181-199 | the loop over masters: each instance itself or its override, each override leaving the map as it is shown |
| EventList.EmitLeftovers | internal/calendar/service.go:200-204 | what the map still holds is appended, once each, in some order |
| EventList.ExceptionMapHoldsOverrides | internal/calendar/service.go:163-172 | the map holds override rows under their own keys, all of them when keys are distinct |
| EventEdit.EventTable.GetExceptionForOccurrence | internal/calendar/repository.go:309-322 | a live override of exactly that occurrence, or none when there is none |
| EventEdit.EventTable.UpdateThisEvent | internal/calendar/service.go:264-307 | the table afterwards is the table before with one override of the occurrence written, over an existing one or new; on an error reply unchanged |
| EventEdit.UpsertKeepsUniqueExactlyWhen | internal/calendar/service.go:281-306 | an edit leaves at most one live override per master and second if and only if every live override of its master and second has exactly its original start |
| EventEdit.UpsertKeepsUnique | internal/calendar/service.go:281-306 | so edits at whole seconds always do |
| EventEdit.FractionsBreakUnique | internal/calendar/service.go:168-172 | edits half a second apart leave two overrides with one key |
| EventEdit.ListingIsWellFormed | internal/calendar/repository.go:222-271 | a table with unique overrides lists rows the merge accepts |
| EventEdit.EditedOccurrence | internal/calendar/service.go:264-307 | a live override in the table is listed exactly once if its time overlaps the window, and the computed occurrence exactly when it does not |
| EditShown.EditIsShown | internal/calendar/service.go:161-307 | from the table before an edit whose second is free to the listing after it: the edit is shown exactly once if its new time overlaps the window, and the computed occurrence exactly when it does not |
| EditShown.EditLeavesTheRest | internal/calendar/service.go:161-307 | between the listings before and after an edit, everything but the edited row and its occurrence is shown exactly if it was |
| HubWire.UvarintReadsBack | internal/docs/collab.go:146-150 | every 64-bit value, encoded, reads back whatever follows |
| HubWire.FramedMessage | internal/docs/collab.go:139-203 | over all framed messages: exactly sync step 2 and update are stored, awareness is echoed, step 1 is answered |
| HubWire.StoredIsNotAnswered | internal/docs/collab.go:139-203 | over all byte strings no message is both stored and answered |
| HubWire.SyncDoneIsStep2 | internal/docs/collab.go:134-139 | the hub's answer is a sync step 2 with an empty update |
| HubObjects.Peer.Enqueue | internal/docs/collab.go:128-133 | the queue takes the message unless it holds 256 |
| HubObjects.Room.Broadcast | internal/docs/collab.go:112-124 | every other peer of the room is offered the message once, the sender never |
| HubObjects.Hub.RoomFor | internal/docs/collab.go:76-86 | the registered room, or a new empty one, registered |
| HubObjects.Hub.AddPeer | internal/docs/collab.go:89-95 | the document gains the peer, no other document changes |
| HubObjects.Hub.RemovePeer | internal/docs/collab.go:97-110 | the room loses the peer and, if it was the last and the room is still registered, the document loses the room; only non-empty rooms stay registered |
| HubObjects.Hub.Route | internal/docs/collab.go:164-171 | the others' queues and the log afterwards, a failing store included |
| HubObjects.Hub.Receive | internal/docs/collab.go:265-283 | the whole effect of one message: without write access data is neither relayed nor stored, and the sender gets exactly the hub's answer |
| HubObjects.Hub.Replay | internal/docs/collab.go:177-188 | a prefix of the log is written, the whole of it exactly when no write fails |
| HubAlone.ReceivesAlone | internal/docs/collab.go:112-186 | the steps of one message, run alone with its targets in any order, leave the queues and the log as HubObjects.Hub.Receive does |
| HubRuns.RunKeepsInv | internal/docs/collab.go:112-286 | over every interleaving all the invariants of the room hold |
| HubRuns.Delivery | internal/docs/collab.go:112-188 | for a connected peer past its log read, every stored update was replayed, is its own, was written, is queued, had its write fail, was refused by a queue that had taken 256, or was being relayed when the peer joined and stored after its log read |
| HubRuns.DeliveryWhenQuiet | internal/docs/collab.go:164-171 | over every run in which nobody joins while a message is being relayed or stored, the last case does not occur |
| HubRuns.DeliveryWhenAtomic | internal/docs/collab.go:164-171 | nor in any run whose relays and appends are one step |
| HubRuns.WireOrder | internal/docs/collab.go:233-260 | on the socket the whole log read at join comes first, then what the queue took, in order |
| HubRuns.LogHoldsPermittedData | internal/docs/collab.go:272-280 | the log holds only data messages read while their sender could write, none of which the hub answers |
| HubMissed.MissedForGood | internal/docs/collab.go:164-171 | an update a connection missed stays missed however the run goes on |
| HubMissed.WhyMissed | internal/docs/collab.go:128-171 | over every run, a missed update is the peer's own, was refused by a queue that had taken 256, or was being relayed at the join |
| HubMissed.MissedExactlyWhen | internal/docs/collab.go:112-171 | a stored update that is not in the peer's replay is missed if and only if it is its own, was refused or was relayed before the join, and was written, is queued or had its write fail if and only if not |
| HubMissed.MissedWhenQuiet | internal/docs/collab.go:112-171 | if nobody joined while a message was being relayed or stored: if and only if it is its own or was refused |
| HubMissed.UpdateMissed | internal/docs/collab.go:164-171 | two connections and seven steps lose an update with no queue full |
| HubRegistry.SplitExactlyWhen | internal/docs/collab.go:76-110 | one step: connections that share a room stay so unless the step drops a room another connection holds |
| HubRegistry.TogetherExactlyWhen | internal/docs/collab.go:76-110 | over every run they share the registered room throughout if and only if no step drops a held room |
| HubRegistry.NoRoomLeftBehind | internal/docs/collab.go:96-110 | in every interleaving the table is empty once every connection has gone |
| HubRegistry.AtomicCallsStayTogether | internal/docs/collab.go:88-110 | with add and remove in one step each, all connections share one room and a room is registered exactly while one is connected |
| HubRegistry.DocumentSplits | internal/docs/collab.go:88-110 | a run of eight steps leaves two connections of one document in different rooms |
| Shuffle.MixIsBijective | internal/alexa/shuffle.go:13-19 | the generator's output step is a bijection of 64-bit words, with its inverse |
| Shuffle.Splitmix64.Next | internal/alexa/shuffle.go:13-19 | the next state and the output |
| Shuffle.ShuffleInPlace | internal/alexa/shuffle.go:24-32 | the array afterwards is the specified shuffle of the array before |
| Shuffle.ShuffleFromPermutes | internal/alexa/shuffle.go:24-32 | a shuffle is a permutation |
| Shuffle.ShuffleIsPositional | internal/alexa/shuffle.go:21-32 | the order depends on the length and the seed alone, never on the members |
| Shuffle.NewSeed | internal/alexa/shuffle.go:38-50 | the seed is the first output after hashing, and never 0 |
| Shuffle.HashOf | internal/alexa/shuffle.go:39-43 | the loop computes the FNV-1a fold of the bytes |
| Shuffle.FnvStepInjective | internal/alexa/shuffle.go:40-43 | a hash step is injective in the state and in the byte |
| Shuffle.OneByteChangesHash | internal/alexa/shuffle.go:38-43 | sources of one length that differ in one byte hash differently |
| Shuffle.OneByteChangesSeed | internal/alexa/shuffle.go:38-50 | such sources share a seed if and only if one draws 0 and the other 1 |
| Queue.FilterTracks | internal/alexa/queue.go:70-89 | the tracks that mode and key describe, in order |
| Queue.OrderedTracks | internal/alexa/queue.go:97-106 | whichever sorted permutation sorting picks, the result is the specified order |
| Queue.OrderedPermutes | internal/alexa/queue.go:97-106 | the order is a permutation of the filtered tracks |
| Queue.OrderedIgnoresListing | internal/alexa/queue.go:91-106 | with unique ids the order does not depend on how the library was listed |
| Skill.RouteIsSound | internal/alexa/handler.go:106-347 | for every request and library a Play directive carries an in-range index and that index's track; a request panics exactly when it is a nearly-finished event whose token has a next index below zero |
| Skill.RunIsSound | internal/alexa/handler.go:106-347 | over every run on tokens the skill issued, the library changing at will, no request panics and every Play is sound |
| Skill.EnqueueIsNext | internal/alexa/handler.go:202-247 | the nearly-finished event enqueues exactly what Next would play, and nothing when Next would not play |
| Skill.PreviousUndoesNext | internal/alexa/handler.go:223-247 | Previous on the token Next played plays the track Next left |
| Skill.NextsVisitTheRest | internal/alexa/handler.go:223-247 | issuing Next until the end plays the rest of the order |
| Skill.WholeQueuePlays | internal/alexa/handler.go:223-247 | starting a queue and issuing Next to the end plays every selected track exactly once |
| Skill.OrderedMembers | internal/alexa/queue.go:70-106 | the order holds exactly the selected tracks, each with its own id |
| VCard.UnescapeVCard | internal/contacts/vcard.go:204-232 | the index loop computes the specified unescaping |
| VCard.EscapeIsCoded | internal/contacts/vcard.go:236-249 | the chains of global replacements equal one pass over the characters, for every string |
| VCard.UnescapeUndoesEscape | internal/contacts/vcard.go:204-249 | unescaping undoes both escapers on every string |
| VCard.UniqAppend | internal/contacts/vcard.go:253-261 | appended unless present up to letter case |
| VCard.CollectParts | internal/contacts/vcard.go:101-107 | trimmed, non-blank, distinct parts in order |
| VCard.SetProperty | internal/contacts/vcard.go:70-107 | the card after one property |
| VCard.ParseVCards | internal/contacts/vcard.go:25-110 | the loop over lines computes the specified cards for every text |
| VCardText.WriteCard | internal/contacts/vcard.go:116-170 | exactly the lines of the contact, each ended by CRLF |
| VCardText.WriteLabels | internal/contacts/vcard.go:155-164 | the escaped labels, commas between |
| VCardText.SerializeVCards | internal/contacts/vcard.go:114-173 | exactly the lines of all contacts in order |
| VCardRoundTrip.LinesComeBack | internal/contacts/vcard.go:28-33 | lines without breaks and leading blanks survive unfolding and splitting |
| VCardRoundTrip.PropertyLine | internal/contacts/vcard.go:64-68 | a printed property line sets the property to the unescaped, right-trimmed value |
| VCardRoundTrip.ValueComesBack | internal/contacts/vcard.go:38-68 | what trimming the escaped line and unescaping it leaves of a value |
| VCardRoundTrip.CardComesBack | internal/contacts/vcard.go:25-173 | the card one printed contact is parsed into |
| VCardDomain.ContactSurvives | internal/contacts/vcard.go:25-173 | a contact comes back unchanged if and only if its fields are trimmed, names and company have no semicolon, labels no comma, and emails, phones and labels are distinct up to case |
| VCardDomain.LabelsSurvive | internal/contacts/vcard.go:101-107 | labels come back exactly when distinct, trimmed, non-empty and without commas |
| VCardBreaks.ParsedHasNoReturns | internal/contacts/vcard.go:28-31 | no parsed field holds a carriage return |
| VCardBreaks.ParsedHasNoFeeds | internal/contacts/vcard.go:28-33 | no field parsed from printed text holds a line feed, notes aside |
| VCardExact.UnbrokenListComesBack | internal/contacts/vcard.go:25-173 | each contact of a list without stray line breaks is parsed back into the card one printed contact gives, in order |
| VCardExact.ComesBackUnbroken | internal/contacts/vcard.go:25-173 | a list that comes back had no stray line breaks |
| VCardExact.RoundTrip | internal/contacts/vcard.go:25-173 | for every list of contacts, parsing what was printed gives the same cards in order if and only if no contact has stray line breaks and all are well-formed |
| DriveTables.Cascade | internal/drive/repository.go:495-511 | a delete takes the rows and everything below them, cycles included |
| DriveTables.CascadeIsLeast | internal/drive/repository.go:495-511 | and nothing else |
| DriveTables.KeysOfWithout | internal/drive/service.go:492-499 | deleting a version row takes exactly its key from the file's versions |
| DriveRuns.LocalKeepsInv | internal/drive/service.go:194-510 | what one request does with its own key and fresh ids cannot harm another request |
| DriveRuns.KeepsInv | internal/drive/service.go:194-784 | every step of every request keeps ownership of keys, stored blobs and fresh keys |
| DriveSafety.NothingDangles | internal/drive/service.go:194-784 | over every interleaving with failures and stops, whatever a file or version row names exists and is stored, and no two files share a key |
| DriveSafety.DeletionsHitUnnamed | internal/drive/service.go:273-293 | a step that removes a blob changes no row, and no row names that blob |
| DriveSafety.GoneForGood | internal/drive/service.go:682-693 | a removed blob never comes back, so no row ever names its key again |
| DriveSafety.LosesExactlyWhen | internal/drive/service.go:480-499 | a file that stays loses a key in exactly two ways: its blob is replaced while no version names it, or a restore removes the last row that names it |
| DriveSafety.RaceLosesUpload | internal/drive/service.go:741-766 | two uploads both past their snapshots: both succeed and the first one's content is stored with no row naming it |
| DriveSafety.RaceIsReachable | internal/drive/service.go:741-766 | that state is reached by a run in which every step succeeds |
| DriveSafety.RestoreLosesContent | internal/drive/service.go:480-499 | an upload between a restore's switch and its tidying: every step succeeds and the restored content is named by nothing |
| DriveAlone.StaysAlone | internal/drive/service.go:456-510 | with one request at a time what it has read stays so |
| DriveAlone.LosesNothing | internal/drive/service.go:456-510 | so no step loses a key of a file that stays |
| DriveAlone.ContentIsKept | internal/drive/service.go:454-510 | one request at a time and no failed snapshot in an upload: whatever content a file ever held it holds under the same key for as long as it exists |
| DriveService.ReplaceAddsOne | internal/drive/service.go:741-766 | replacing adds exactly the new blob to what the file holds; if the snapshot failed exactly the current one goes; other files keep theirs |
| DriveService.RestoreConserves | internal/drive/service.go:456-505 | restoring keeps the multiset of current and version blobs |
| DriveService.RestoreBack | internal/drive/service.go:454-505 | restoring the new snapshot gives back the file row as it was, and the version under a new id |
| DriveService.Drive.Upload | internal/drive/service.go:704-784 | the status and both stores for every combination of failures; a failed insert leaves a blob only if the rollback fails too |
| DriveService.Drive.ReplaceContent | internal/drive/service.go:737-772 | the same; when it fails at most one version row was added |
| DriveService.Drive.CopyFile | internal/drive/service.go:194-247 | the copy has its own key with the same content, and nothing else changes |
| DriveService.Drive.RestoreFileVersion | internal/drive/service.go:456-510 | the status and the tables for every combination of failures; a failed tidy only leaves the version row |
| DriveAgrees.RestoresAlone | internal/drive/service.go:456-510 | a restore's steps run alone leave the same tables, whatever fails, and nothing else |
| DriveService.Drive.DeleteForever | internal/drive/service.go:273-293 | the row goes with everything below it; of their blobs exactly the row's own is deleted, so versions' and children's blobs stay stored unnamed |
| DrivePaging.ListChildren | internal/drive/repository.go:148-201 | a page holds the matching rows past the token up to its own token, or all of them; with a token it is full and more follows |
| DrivePaging.ListedInOrder | internal/drive/repository.go:145-201 | over rows that change between pages ids only go up |
| DrivePaging.ListedExactly | internal/drive/repository.go:145-201 | a complete walk shows a row if and only if it matched when the page answering for its id was read |
| DrivePaging.EachRowOnce | internal/drive/repository.go:145-201 | a row that matches throughout is shown exactly once |
| DrivePaging.WalkEnds | internal/drive/repository.go:149-151 | over unchanging rows the walk ends: all pages but the last are full |
| DrivePaging.UnchangingRowsListed | internal/drive/repository.go:148-201 | and shows exactly the matching rows |
| ConvertRuns.SlotsAreBounded | internal/convert/soffice.go:324-347 | in every interleaving running <= slots held <= limit, and with no request left every slot is free |
| ConvertRuns.PeakIsObserved | internal/convert/soffice.go:341-346 | the peak is the largest count seen by a request past its loop, at most limit, and at least the number running when none is in the loop |
| ConvertRuns.PeakNeverFalls | internal/convert/soffice.go:341-346 | over any run the peak never falls |
| ConvertRuns.SwapFailsOnlyBehindARise | internal/convert/soffice.go:341-346 | the loop goes round again if and only if another request raised the peak since it was loaded |
| ConvertRuns.FailuresAreBounded | internal/convert/soffice.go:338-347 | in every interleaving a request's swap fails at most limit times, and its place and its failures account for every step it has taken |
| ConvertRuns.HoldersGoOn | internal/convert/soffice.go:338-347 | a request holding a slot always has a step of its own to take and has given the slot back after 2 * limit + 7 of them |
| ConvertParts.SinkBack | internal/convert/soffice.go:297-299 | one round of the insertion sort extends the sorted part and permutes the array |
| ConvertParts.SortedExts | internal/convert/soffice.go:290-302 | the array is the sorted permutation of the map's keys |
| ConvertParts.ExtsAreDeterministic | internal/convert/soffice.go:295 | the result does not depend on the map's iteration order |
| ConvertParts.LimitedBuffer.Write | internal/convert/soffice.go:463-478 | after any writes the buffer holds the first max bytes of everything written, and every write reports success |
| LuaText.LuaString | internal/docs/export_images.go:283-298 | Lua reads the literal as the bytes it was made of, for every byte string |
| LuaText.CodedByte | internal/docs/export_images.go:293-294 | a coded byte reads back whatever follows, digits included |
| Text.DecimalReadsBack | internal/docs/export_images.go:208 | decimal numbers read back |
| ExportImages.NamesDiffer | internal/docs/export_images.go:208 | names tell their numbers apart, whatever the types |
| ExportImages.Export.NamesAreDistinct | internal/docs/export_images.go:208 | no two pictures share a name |
| ExportImages.Export.Load | internal/docs/export_images.go:188-219 | a picture is kept exactly when it fits the picture cap, the total cap and the count and can be written; total and table move together |
| ExportImages.Export.Resolve | internal/docs/export_images.go:179-186 | empty or a name of the filter table, the same for the same source ever after |
| ExportImages.Export.RewriteAttr | internal/docs/export_images.go:246-263 | one attribute of an img tag, as the table of sources has it |
| ExportImages.Export.RewriteTag | internal/docs/export_images.go:245-264 | one img tag, every src resolved, srcset and unprintable names dropped |
| ExportImages.Export.Rewrite | internal/docs/export_images.go:221-267 | the whole document is what the final table of sources says: other markup as it was, every src empty or in the filter table, equal sources equal |
| ExportImages.Export.Filter | internal/docs/export_images.go:300-310 | each entry's literals read back as the picture's name, path and type |
| ExportImages.EscapedHasNoQuote | internal/docs/export_images.go:255-262 | what is printed in an attribute cannot end it |
| Comments.RepliesStayOneLevel | internal/docs/repository.go:419-447 | over every interleaving replies stay one level deep, in their root's document, and none outlives it |
| Comments.ListComments | internal/docs/repository.go:468-517 | roots in order, each with exactly its replies in order |
| Comments.ListsEveryRowOnce | internal/docs/repository.go:494-517 | a listing shows every row exactly once if and only if every reply's parent is a root among the rows |
| Comments.EveryCommentIsListed | internal/docs/repository.go:468-560 | over every run of creations, replies and deletions every stored comment of a document is listed exactly once, oldest first |
| ProtectionGate.Gate.IsReadOnly | internal/docs/repository.go:656-670 | the state after a call, and the answer |
| ProtectionGate.FetchedIsLatest | internal/docs/repository.go:663-668 | the fetch time is that of the latest call that loads |
| ProtectionGate.LoadsAreApart | internal/docs/repository.go:643-670 | for times that do not go back, loads are at least the TTL apart |
| ProtectionGate.AnswersLastLoaded | internal/docs/repository.go:654-670 | the answer is the latest successful load's, and a load was tried less than the TTL before |

## Left out

- Time zones with daylight saving: times are at one fixed offset.
- What `time.Date` makes of a month or a year that no time can show: any value, a parameter of the loops.
- LoopsEnd.ComesOutExactlyWhen: the start and the window's end lie within a billion days of year 1, as every time the database or RFC 3339 holds does.
- PostgreSQL rounds times to microseconds; rows keep theirs.
- Unicode case folding: letter case is ASCII case; white space is the full Unicode set.
- `time.Parse` is a parameter of the rule reader, and the text of an UNTIL date is any that it reads as that time.
- Cancelled occurrences and the item-type filter of `ListEvents`.
- The this-event edit is one step: two edits of one occurrence at the same moment, both finding no row, are not interleaved.
- JSON and base64 of the Alexa token: a token string is missing, refused, or the encoding of a token.
- Signatures and certificates of Alexa requests, stream URLs, and spoken texts: an enumeration stands for the sentences.
- Yjs itself and the WebSocket library: a message is bytes, a socket a sequence of writes of which one may fail.
- The 10-second write limit and the read limit of the hub; a failed write ends the writer, a failed replay the connection.
- `HubRuns` keeps `addPeer` and `removePeer` atomic; `HubRegistry` takes them apart for one document's rooms only.
- SQL text, transactions and connection errors that leave it unknown whether a statement took effect: each statement succeeds or changes nothing.
- Organisations, owners, sizes and names in Drive, and with names the unique constraint, whose violation is one way an insert fails.
- Fresh keys and ids are assumed: 128 random bits never repeat.
- A blob Put that fails stores nothing, and the last read of a handler, for its reply, does not fail.
- `ListRecent`, `ListTrash` and `ListStarred`: their token is not their sort key.
- Which blobs leak is stated for one deletion; the total of leaked blobs over a run is not counted.
- soffice, its process group and its files: a conversion is a step that ends.
- Decoding data URLs, loading assets and sniffing types: the picture a source gives is an input, as are write failures; the base64 body of inline exports is not modelled.
- The HTML tokenizer: its tokens are the input of the rewriting.
- The Lua filter's own code, and Lua escapes other than decimal.
- Resolving and editing comments, which touch neither threads nor order.
- The chat hub, the desktops, HTTP, gRPC, authentication and sharing.
