# Verified model of the indexer

This project models the parts of an index provider's consumer that are hard to get right, and proves what they
promise. The indexer follows chains of advertisements published by storage providers and turns them into an index
from multihashes to providers. `dafny verify dfyconfig.toml` checks everything.

| file | what it models |
|---|---|
| `Types.dfy` | identifiers, addresses, times and cells that several files share |
| `Advertisements.dfy` | advertisements, the effect of ingesting one, the datastore keys that record progress |
| `Worker.dfy` | one turn of an ingest worker as a function, and what that function promises |
| `Ingester.dfy` | the ingester's state and methods, proved against `Worker` |
| `Staging.dfy` | stagers, workers and announcers interleaving over staging cells, locks and tokens |
| `Pool.dfy` | with a pool of at least one worker, what has begun there goes on and ends |
| `ChainSteps.dfy` | the same machine with a chain, syncs and a datastore on top, and its invariant |
| `Chain.dfy` | gap-free ingestion over all runs of that |
| `Scans.dfy` | the scan of a sync in such a run finds what `Ingester` groups |
| `Writes.dfy` | the writes of a worker in such a run are those of `Worker`, and the other way around |
| `Listeners.dfy` | who is notified of processed advertisements, and when cancelling can block for ever |
| `Notify.dfy` | from the events of a turn to the channels of those who wait for it |
| `Words.dfy`, `Varint.dfy`, `Wire.dfy` | machine words, base 128 varints, the message codec as functions |
| `Grammar.dfy` | the message format as a grammar; the skipper passes over exactly one field |
| `Codec.dfy` | the decoder reads legal fields and nothing else |
| `Decoding.dfy` | what skipper and decoder accept |
| `Folding.dfy` | decoding is a left fold; unknown fields are transparent |
| `Encoding.dfy` | encoding followed by decoding is the identity |
| `Groups.dfy` | the grammar is unambiguous; which groups the skipper should not accept |
| `Tags.dfy` | what tags, values and lengths say, in numbers |
| `Message.dfy` | the codec as the program has it: loops over an index, a buffer written from its end |
| `Batching.dfy` | double-buffered batching between two goroutines, and the batching of a HAMT on top |
| `Sequences.dfy` | replay rejection with garbage collection |
| `Discovery.dfy` | which addresses are being discovered, and when discovery may start again |
| `Expiry.dfy` | when polling removes a provider, and which intervals it is polled by |
| `Registry.dfy` | the registry: registration, polling and expiry, memory and disk |
| `Finder.dfy` | finding providers with a cache and deletion in the background |

How the program's parts appear:

- The value store is a map from a provider and a context ID to content. A removal clears the whole context, as
  `internal/ingest/linksystem.go:170-178` and `doc/ingest.md:40` have it.
- What syncing entries, the indexer and the registry do during the ingestion of one advertisement is an arbitrary
  `Attempt`: success or any of the error classes, with any effect, also a partial one, on the content of the
  advertisement's own context.
- A finished sync lists a chain from its head down to, but excluding, the latest-sync key as it was when the sync
  began. That key always names an advertisement that was processed (`internal/ingest/synchandler.go:12-27`).
- Concurrency is a step relation: each step is one atomic action of one thread, and a theorem about runs holds for
  every interleaving. Methods of the classes are single calls; what runs on the registry's one goroutine is a method
  call, so a theorem that every method keeps `Valid()` is a theorem about all runs.
- Clocks, the outcome of datastore writes, the timing of background deletions and the oracle for indexer failures are
  parameters.
- Bits are numbers: or-ing a shifted payload into an accumulator adds it (`Words.OrShiftedBits64` and the two lemmas
  after it, for each shift that occurs), and masks and shifts by constants are divisions
  (`Words.MasksAndShiftsAreDivisions`). Wrap-around of 64-bit indices, 64-bit lengths and
  32-bit types is written out.
- `Message.FinderMessage` stands for the finder's message and for the ingest message: the two files hold the same
  code under two names.

Where the code does not do what it says:

- The row `true | data` of `api/v0/ingest/schema/doc.go:11` says that a removal with entries removes these only. The
  code does so exactly if they are all that its context has (`Advertisements.RemovalAsDocumentedIff`);
  `Advertisements.RemovalTakesUnlisted` gives an input.
- A scan takes a processed advertisement to mean that all older ones are (`internal/ingest/ingest.go:735-738`). It
  leaves an unprocessed one out exactly if a newer one that is listed is processed (`Ingester.StagedIff`), which
  happens on a chain with two providers (`Ingester.OtherProviderIsLeftOut`).
- Decoding is a left fold up to the error it reports, which differs exactly when the second input stops at a field
  whose claimed end fits in 63 bits counted from its own start and not counted from the start of the whole
  (`Folding.DecodingIsLeftFold`); `Folding.ErrorCanDiffer` gives an input.
- Cancelling a notification channel is documented to close it (`internal/ingest/ingest.go:534-536`), but the last
  channel of a publisher is not closed (`Listeners.EventHub.Cancel`; `Listeners.LastListenerStaysOpen` is such a
  call). Nor does the buffer of one event keep the distributor from blocking, which it does with the one mutex of all
  listeners held: a reader that has stopped reading and wants to cancel can wait for ever, in some run, exactly if some
  channel holds, is getting and will get more than one event, or some publisher has more than one event to come
  (`Listeners.CancelCanGetStuckIff`).
  `Listeners.OtherListenerGetsStuck` gives a run in which the reader waits for somebody else's channel.
- Replay rejection needs a clock that has moved on between a garbage collection and a later check
  (`Sequences.ReplayRejectedIffSafe`); an equal reading is enough for a replay (`Sequences.SameTimeAllowsReplay`). With
  a clock that strictly advances it fails only around the moment that is the maximum age after the epoch
  (`Sequences.AdvancingClockRejectsReplay`).
- A provider's information is documented never to be modified (`internal/registry/registry.go:56-59`). Polling modifies
  the contact time and the flags in place, and leaves them as they are exactly if the provider is not polled, or its
  last contact is known and not too long ago for removal, nor for inactivity unless it is inactive already
  (`Expiry.PollLeavesAsIsIff`, `Registry.Registry.PollProviders`). `Registry.PollChanges` is a call in which a
  reference found before the first poll sees another contact time after it. Removing a provider modifies its deleted
  flag (`Registry.Registry.RemoveProvider`). The fields that are persisted are constants of the class.
- A provider can have polling intervals of its own, which the loop over the providers keeps in the variable that holds
  everybody's, so they carry over to the providers that come after it, in the random order of a Go map. Whatever the
  order, the polls go by the configured intervals exactly if each polled provider has intervals of its own, or those
  that some have are everybody's (`Expiry.PolledAsConfiguredIff`). `Expiry.OrderDecidesRemoval` gives inputs for which
  the order decides whether a provider is removed.
- `RegisterOrUpdate` fills in the publisher's address from the provider's addresses as they were before it applies
  new ones. So a provider that is its own publisher has no publisher address exactly if it was not known before and
  none was given (`Registry.PublisherAddrMissingIff`); `Registry.SelfRegistered` gives an input. The next update or
  restart fills it in.
- `RegisterOrUpdate` panics when a changed publisher has no address or a provider address does not parse; the model
  returns `Panicked` (`Registry.UpdateRecord`; `Registry.UpdatesThatPanic` makes two such calls).
- `Find` means to leave the values of inactive providers alone (`server/finder/handler/finder_handler.go:77-80`), but
  the lookup finds no inactive provider. A context is scheduled for deletion exactly if its provider is absent or
  inactive (`Finder.StaleIffAbsentOrInactive`), so the values of registered providers are spared exactly if none of
  these providers is inactive (`Finder.SparesRegisteredIff`); `Finder.InactiveIsDeleted` gives an input.
- The skipper does not compare the field number of a group's end with that of its start, nor look at the numbers of the
  fields inside. It is right to accept what it accepts exactly if the one field that stands there keeps to these rules
  at every depth (`Groups.SkipperIsRightIff`, for whole messages `Groups.DecoderIsRightIff`). `Groups.MismatchIsAccepted`
  and `Groups.NumberZeroIsAccepted` give inputs.

## Model

| member | source | states |
|---|---|---|
| Advertisements.RemovalAsDocumentedIff | internal/ingest/linksystem.go:170-178 | a removal that succeeds clears its context whatever it lists, which is to remove what it lists exactly if it lists all |
| Advertisements.RemovalTakesUnlisted | internal/ingest/linksystem.go:170-178 | a removal that lists one of two multihashes and removes both |
| Advertisements.IngestAdIs | internal/ingest/linksystem.go:135-200 | which error, and which change to the advertisement's own context, in each case of provider, registration, removal, metadata update and entries; no other context changes |
| Advertisements.RetainedIffStops | internal/ingest/ingest.go:894-917 | an attempt ends a worker's turn exactly if it is one of those that `StopsBy` lists, with the error listed there |
| Worker.ElisionPreservesMeaning | internal/ingest/ingest.go:824-940 | whatever each ingestion does to its own context, a turn that completes leaves the value store that ingesting every unprocessed advertisement without skipping would leave; a turn that stops agrees with it on every context with no removal among those left |
| Worker.ElisionAgreesAt | internal/ingest/ingest.go:857-939 | the same for one context, from any pair of stores that agree on it or whose difference a newer removal will erase |
| Worker.ElisionAcrossTurns | internal/ingest/ingest.go:824-940 | the same over any number of turns that stop early and go on later, with newer advertisements published in between: whenever none is left, the value store is the one without skipping |
| Worker.TurnTrace | internal/ingest/ingest.go:857-939 | each advertisement is marked once, oldest first, and announced by one success event in that order; a turn that stops sends one error event, the last |
| Worker.TurnStopsAt | internal/ingest/ingest.go:857-928 | a turn stops at the oldest advertisement that is not redundant and whose attempt ends a turn, whatever the value store holds, and its last event has that attempt's error |
| Worker.TurnMarksOnly | internal/ingest/ingest.go:496-509 | of all advertisements, those that a turn gets past become processed and lose their blocks, and no others |
| Worker.CrashKeepsOlderProcessed | internal/ingest/ingest.go:471-509 | after any number of the datastore writes of a turn, processed still implies all older processed |
| Worker.CrashPoint | internal/ingest/ingest.go:496-509 | the exact progress at every point between the writes: where the processed ones begin and what latest-sync names |
| Worker.TurnAdvancesFrontier | internal/ingest/ingest.go:828-939 | after a turn exactly the advertisements it did not leave are processed, and latest-sync names the last one marked |
| Worker.LaterTurnResumes | internal/ingest/ingest.go:828-854 | a later turn over the same list starts at the advertisement that failed |
| Worker.LaterTurnResumesBehindNewer | internal/ingest/ingest.go:828-854 | and so it does when newer advertisements have come in front of that list |
| Worker.UnmarkingKeepsOlderProcessed | internal/ingest/ingest.go:471-483 | every prefix of the pass that unmarks a chain from its newest advertisement keeps processed implies all older processed, and unmarks exactly that prefix |
| Worker.LastEventReleasesWaiter | internal/ingest/ingest.go:391-404 | the last event of a turn with work to do ends the wait for its head, and no earlier one does |
| Worker.TurnReleasesWaiterIff | internal/ingest/ingest.go:391-404 | the wait for an advertisement behind the head, whose own assignment was superseded, is ended by the turn exactly if the turn gets as far as that one |
| Notify.EventFields | internal/ingest/ingest.go:878-938 | the k-th event of a turn names the assignment's publisher, its head and the k-th oldest unprocessed advertisement; it is an error exactly if it is the last one of a turn that leaves some |
| Notify.ActionsAreEventsAndWrites | internal/ingest/ingest.go:857-939 | the trace of a turn consists of its events and its writes |
| Notify.MarkedBeforeAnnounced | internal/ingest/ingest.go:930-938 | right before each success event come the three writes of the mark that it announces |
| Notify.TurnIsHeard | internal/ingest/ingest.go:514-527 | the events of a turn, distributed, stand in order on every channel listed for the assignment's publisher, and on no other; so does the one that releases a waiter |
| Ingester.SkipIsExact | internal/ingest/ingest.go:842-848 | the top of the stack is i exactly if a newer removal makes advertisement i redundant; then there is something below it to pop, and popping keeps the stack exact |
| Ingester.PopSkip | internal/ingest/ingest.go:865-868 | the same for the slice and the variable that together are the stack |
| Ingester.GroupIsFaithful | internal/ingest/ingest.go:728-757 | what is staged for a provider are exactly the listed advertisements before the first processed one whose blocks hold them and that name this provider, as the blocks hold them, unprocessed and without duplicates |
| Ingester.GroupFromBlocks | internal/ingest/ingest.go:728-757 | an advertisement is in a group exactly if it is listed and the block of its CID holds it, for that provider |
| Ingester.GroupInOrder | internal/ingest/ingest.go:728-757 | a group is in the order of the list |
| Ingester.StagedIff | internal/ingest/ingest.go:728-757 | an unprocessed advertisement that a listed block holds is staged, as it is there, exactly if no newer listed one is processed |
| Ingester.OtherProviderIsLeftOut | internal/ingest/ingest.go:735-739 | after the turn of one provider, the older advertisement of another is not staged |
| Ingester.Ingester.GroupByProvider | internal/ingest/ingest.go:728-757 | for every provider the loadable advertisements listed before the first processed one, in order |
| Ingester.Ingester.RunIngestStep | internal/ingest/ingest.go:726-784 | every group is in its cell, under its publisher and provider, and with it every new advertisement that a listed block holds; its lock exists, and exactly one token was sent for each cell that held no assignment |
| Ingester.Ingester.StageGroups | internal/ingest/ingest.go:759-783 | the same for given groups, in any order of providers |
| Ingester.Ingester.StageGroup | internal/ingest/ingest.go:761-782 | one swap: the new cell, and a token only if the cell was empty |
| Ingester.Ingester.ScanAssignment | internal/ingest/ingest.go:824-854 | where processed advertisements begin, and a stack of exactly the redundant ones before that |
| Ingester.Ingester.ProcessAd | internal/ingest/ingest.go:858-939 | one iteration does to store, events and journal what the turn as a function does, the mark before its event |
| Ingester.Ingester.ProcessAds | internal/ingest/ingest.go:857-940 | so does the whole loop, with writes and events in the order of `TurnActions` |
| Ingester.Ingester.ProcessNextAd | internal/ingest/ingest.go:857-939 | after each iteration what is to come completes the turn, and what has been written and sent is in order |
| Ingester.Ingester.IngestWorkerLogic | internal/ingest/ingest.go:808-940 | a turn empties the cell and does what `WorkerTurn` says, and nothing if the cell was empty |
| Ingester.Ingester.Complete | internal/ingest/ingest.go:930-938 | the three writes of the mark and then the event that announces it, in one trace of writes and events |
| Ingester.Ingester.MarkAdProcessed | internal/ingest/ingest.go:496-509 | the three writes of a mark, in order |
| Ingester.Ingester.MarkChainUnprocessed | internal/ingest/ingest.go:361-374 | a resync unmarks the chain, newest first |
| Ingester.Ingester.AwaitHead | internal/ingest/ingest.go:391-404 | the wait stops at the first event that releases it and at no other |
| Staging.NextKeepsInv | internal/ingest/ingest.go:759-822 | every step of every thread keeps tokens and assignments matched, locks exclusive and threads prepared |
| Staging.TokensMatchAssignments | internal/ingest/ingest.go:765-806 | in every run, the tokens outstanding for a provider are one if its cell holds an assignment and none otherwise, and as many threads hold its lock as its channel holds |
| Staging.NeverStuckOnNil | internal/ingest/ingest.go:795-822 | a draining worker finds a nonempty assignment, and every lock and cell that is used exists |
| Staging.IdleMeansDrained | internal/ingest/ingest.go:786-806 | when all threads are idle no assignment is left and every lock is free |
| Staging.PendingIsLastDeferred | internal/ingest/ingest.go:419-449 | in every run an announce is pending for a provider exactly if it was the last one to find the lock taken and no worker has taken what is pending since |
| Staging.PendingStep | internal/ingest/ingest.go:428-449 | one step: a knock at a taken lock stores its announce, a worker takes what is pending for its provider, and every other step leaves that alone |
| Staging.KnockIsAnnounced | internal/ingest/ingest.go:419-433 | the announce that a thread tries the lock with is the one it was called with |
| Pool.NoDeadlock | internal/ingest/ingest.go:706-822 | with at least one worker, in every run, some step goes on with what has begun unless all threads are idle |
| Pool.StepsRunOut | internal/ingest/ingest.go:706-822 | from any state, without new staging and announces, no more steps can be taken than a bound that the threads' states give |
| Pool.AtRestMeansDrained | internal/ingest/ingest.go:706-822 | when these steps have run out, no assignment is left and every lock is free |
| ChainSteps.NextKeepsInv | internal/ingest/ingest.go:726-940 | every step of syncs, stager, workers, announcers and the removal of the publisher keeps what is staged joined to what is processed |
| Chain.GapFreeExactlyOnce | internal/ingest/ingest.go:726-940 | in every run the processed advertisements are a prefix of the chain, each marked once and in order, and latest-sync names the newest, or the one before between the writes of a mark, or nothing from the removal of the publisher (`internal/ingest/ingest.go:622-633`) to the next mark |
| Chain.QuiescenceMeansProcessed | internal/ingest/ingest.go:726-940 | at rest, with no failure since the last sync finished, its head and all older advertisements are processed |
| Scans.ListingIs | internal/ingest/synchandler.go:20-26 | what a finished sync lists, as the scan takes it: the chain from its head down to but excluding what latest-sync named, or to its start if that is not behind the head |
| Scans.ScanFindsGroup | internal/ingest/ingest.go:728-757 | in every run, what the scan of a sync stages are the advertisements that `GroupOf`, and so the grouping method, takes from the same list, if nothing is marked during the scan |
| Writes.WorkerWritesAsTurn | internal/ingest/ingest.go:824-940 | in every run, whatever threads interleave, a worker that begins to mark makes the writes of marking its advertisements in order, as far as it has come |
| Writes.WorkerTurnInRun | internal/ingest/ingest.go:824-940 | it begins where the turn as a function does, and when it ends, also at an error, it has made exactly the writes of a turn that leaves as many |
| Writes.TurnIsPossible | internal/ingest/ingest.go:857-939 | the other way around: a worker with advertisements to go has steps that make the writes of marking any number of them, and then it can stop at an error or, with none left, finish |
| Listeners.EventHub.OnAdProcessed | internal/ingest/ingest.go:537-554 | a new channel joins its publisher's list, and nothing else changes; in the machine of the next rows it is the step `Listen` |
| Listeners.EventHub.Cancel | internal/ingest/ingest.go:551-580 | the channel leaves its list and all others stay; it is closed exactly if others were listed; no listed channel is ever closed; in the machine it is the step `CancelAt` |
| Listeners.LastListenerStaysOpen | internal/ingest/ingest.go:561-567 | a listener that cancels and whose channel stays open |
| Listeners.EventHub.Distribute | internal/ingest/ingest.go:514-527 | an event goes once to each listener of its publisher and to nobody else, when no channel is full |
| Listeners.EventHub.DistributeEvents | internal/ingest/ingest.go:514-527 | the loop: each channel gets the events of the publishers that list it, in order |
| Listeners.DistributesWithRoom | internal/ingest/ingest.go:514-527 | the machine's steps for one event, with room in the channels, amount to such a call |
| Listeners.CancelGoesThroughIff | internal/ingest/ingest.go:514-557 | of all lists, readers and the one mutex: a reader that has stopped reading can still cancel exactly if no full channel that nobody reads is to get the event being delivered |
| Listeners.CancelCanGetStuckIff | internal/ingest/ingest.go:514-557 | some run makes that reader wait for ever exactly if a channel holds, is getting and will get more than one event, or a publisher has more than one to come; otherwise it can cancel whatever the others do |
| Listeners.OnlyListenerCanGetStuckIff | internal/ingest/ingest.go:514-557 | with one listener, exactly if the events buffered, being delivered and to come are at least two |
| Listeners.OtherListenerGetsStuck | internal/ingest/ingest.go:514-557 | a run of two listeners in which one waits for ever although nothing was sent to it |
| Words.OrShiftedBits64 | api/v0/finder/pb/finder.pb.go:236 | on the bits of a 64-bit word, or-ing in a payload shifted by 0 to 28 adds it, which justifies the arithmetic of the accumulator |
| Words.OrShiftedHighBits64 | api/v0/finder/pb/finder.pb.go:236 | the same for the shifts from 35 to 63, where bits are lost |
| Words.OrShiftedBits32 | api/v0/finder/pb/finder.pb.go:264 | the same for a 32-bit word |
| Words.MasksAndShiftsAreDivisions | api/v0/finder/pb/finder.pb.go:191-192 | the masks and shifts of the codec are remainders and quotients |
| Varint.ReadEncoded | api/v0/finder/pb/finder.pb.go:188-198 | reading an encoded number back uses exactly its bytes and gives the number, whatever follows |
| Varint.SizeIsEncodedLength | api/v0/finder/pb/finder.pb.go:215-217 | the closed formula for the size is the number of bytes the encoder writes |
| Varint.EncodedAtMost10 | api/v0/ingest/pb/ingest.pb.go:216-218 | no 64-bit number takes more than ten bytes, so the reader accepts every encoded number |
| Varint.ValueAppend | api/v0/finder/pb/finder.pb.go:227-241 | what one more byte adds to the number, and that it does not meet the bits already there |
| Decoding.SkipIsOneField | api/v0/finder/pb/finder.pb.go:324-401 | the skipper succeeds within its input exactly if a well-formed field of any wire type, with groups nested to any depth, stands at its start, and returns that field's length |
| Grammar.SkipField | api/v0/ingest/pb/ingest.pb.go:325-402 | inside groups of any depth the skipper passes over a well-formed field and nothing more |
| Grammar.ParseFields | api/v0/finder/pb/finder.pb.go:327-399 | whatever the skipper passes over inside a group is a sequence of well-formed fields and the group's end |
| Grammar.ParseField | api/v0/finder/pb/finder.pb.go:324-401 | whatever the skipper accepts is one well-formed field |
| Groups.FieldUnique | api/v0/finder/pb/finder.pb.go:324-401 | no well-formed field is a proper prefix of another, and no two are written alike |
| Groups.FieldAtStartIsUnique | api/v0/finder/pb/finder.pb.go:324-401 | so the field that the skipper passes over is the only one there |
| Groups.FieldsUnique | api/v0/finder/pb/finder.pb.go:221-323 | and a message is made of one sequence of fields only |
| Groups.SkipperIsRightIff | api/v0/finder/pb/finder.pb.go:383-388 | the skipper accepts the field; a field whose groups match, or whose numbers are legal, stands there exactly if it is this one |
| Groups.DecoderIsRightIff | api/v0/finder/pb/finder.pb.go:221-323 | the same for a decoded message and matching groups |
| Groups.MismatchIsAccepted | api/v0/finder/pb/finder.pb.go:383-388 | a group that starts with field 3 and ends with field 4 is decoded |
| Groups.NumberZeroIsAccepted | api/v0/finder/pb/finder.pb.go:327-399 | so is a group with a field of number 0 |
| Codec.DecodeLegal | api/v0/finder/pb/finder.pb.go:225-316 | one iteration reads a legal field, whatever follows it, and merges it |
| Codec.ParseLegal | api/v0/finder/pb/finder.pb.go:225-316 | one iteration reads nothing but a legal field |
| Decoding.UnmarshalMergesFields | api/v0/finder/pb/finder.pb.go:221-323 | decoding succeeds exactly on the concatenations of legal fields and gives the merge of those fields, the last one winning |
| Folding.DecodingIsLeftFold | api/v0/finder/pb/finder.pb.go:221-323 | once x has decoded, decoding x + y gives the message and the success of decoding y into the result; the error differs if and only if y stops at a field whose claimed end is below 2^63 and not below it with the length of x added |
| Folding.ErrorCanDiffer | api/v0/finder/pb/finder.pb.go:292-301 | two bytes and a field for which the error does differ |
| Folding.UnknownFieldIsTransparent | api/v0/finder/pb/finder.pb.go:303-316 | a well-formed field with another number than 1 or 2, inserted at any field boundary, changes neither the message nor whether decoding succeeds |
| Tags.TagSays | api/v0/finder/pb/finder.pb.go:226-242 | a tag that is the varint of 8n + w, in however many bytes, says field n with wire type w, or what remains of n as a signed number of 32 bits |
| Tags.FieldSays | api/v0/finder/pb/finder.pb.go:242-316 | in such numbers, which well-formed fields are legal, and what each of them sets in the message |
| Tags.OtherNumbersAreTransparent | api/v0/finder/pb/finder.pb.go:303-316 | transparency of every well-formed field whose number, in that sense, is above 2 |
| Tags.TagsRefused | api/v0/finder/pb/finder.pb.go:243-268 | the tags that are refused whatever follows, and with which error |
| Tags.VarintEndsAt | api/v0/finder/pb/finder.pb.go:227-241 | a varint ends at its first byte with a clear top bit, within ten bytes; otherwise it overflows or is cut off |
| Tags.LengthSays | api/v0/finder/pb/finder.pb.go:273-301 | the length of a well-formed field is that of its payload, read as a signed number of 64 bits |
| Tags.DataLengths | api/v0/finder/pb/finder.pb.go:269-302 | what the length of a data field leads to: an invalid length if it is negative or its end is at 2^63 or beyond, an unexpected end if it is past the input, or else these bytes as the data |
| Tags.SeventeenIsUnknown | api/v0/finder/pb/finder.pb.go:303-316 | three bytes with a field 17, which decode to nothing |
| Tags.TypeIsFieldOne | api/v0/finder/pb/finder.pb.go:180-184 | the bytes of a type above 127, written and read |
| Tags.DataAreFieldTwo | api/v0/finder/pb/finder.pb.go:173-179 | the bytes of short data, written and read |
| Encoding.RoundTrip | api/v0/finder/pb/finder.pb.go:153-323 | for every type, also a negative one, and all data, decoding what was encoded gives the message back, and merges it into a message that is not empty |
| Encoding.EncodeWritesFields | api/v0/finder/pb/finder.pb.go:168-186 | the encoder writes legal fields |
| Encoding.SignSurvives | api/v0/finder/pb/finder.pb.go:181-182 | truncating to 32 bits undoes the sign extension to 64 |
| Message.Accumulate64 | api/v0/finder/pb/finder.pb.go:236 | one step of the 64-bit accumulator |
| Message.Accumulate32 | api/v0/finder/pb/finder.pb.go:264 | one step of the 32-bit accumulator, with the bits that do not fit lost |
| Message.ReadUint64 | api/v0/finder/pb/finder.pb.go:226-241 | the loop reads the varint at the index: the bytes it uses, the error it fails with, the number modulo 2^64 |
| Message.ReadLength | api/v0/finder/pb/finder.pb.go:273-288 | the same for a length, which is signed |
| Message.SkipVarint | api/v0/finder/pb/finder.pb.go:347-358 | the loop that reads a varint for its extent only |
| Message.SkipItemAt | api/v0/finder/pb/finder.pb.go:328-391 | one iteration of the skipper up to its checks, with wrapping index arithmetic |
| Message.SkipStep | api/v0/ingest/pb/ingest.pb.go:329-398 | one iteration moves to a higher index, stops, or fails, and what is left decides the result |
| Message.SkipField | api/v0/finder/pb/finder.pb.go:324-401 | on every input the skipper ends without an index out of range, and returns what `Skip` says |
| Message.FinderMessage.UnmarshalType | api/v0/finder/pb/finder.pb.go:254-268 | the type is the varint modulo 2^32, read as signed |
| Message.FinderMessage.UnmarshalData | api/v0/finder/pb/finder.pb.go:269-302 | the data, or the error, of a length-delimited field |
| Message.FinderMessage.UnmarshalField | api/v0/finder/pb/finder.pb.go:225-316 | one iteration changes the message, the index and the error as `DecodeField` says |
| Message.FinderMessage.Unmarshal | api/v0/finder/pb/finder.pb.go:221-323 | on every input decoding ends without an index out of range and leaves the message and the error that `Unmarshaled` says, from any message |
| Message.FinderMessage.Size | api/v0/finder/pb/finder.pb.go:199-213 | the length of the encoding |
| Message.FinderMessage.MarshalToSizedBuffer | api/v0/finder/pb/finder.pb.go:168-186 | the end of the buffer is the encoding and the rest is unchanged |
| Message.FinderMessage.Marshal | api/v0/finder/pb/finder.pb.go:153-161 | every byte of a fresh buffer of the computed size is written |
| Message.WriteVarint | api/v0/finder/pb/finder.pb.go:188-198 | the varint ends at the offset, and no other byte changes |
| Batching.ChunksPartition | internal/ingest/linksystem.go:420-466 | the batches to be had concatenate to the multihashes; none is empty, and all but the last are full |
| Batching.PartitionIsChunks | internal/ingest/linksystem.go:420-466 | and they are the only such batches |
| Batching.NextKeepsInv | internal/ingest/linksystem.go:407-470 | every step of producer and consumer conserves the multihashes and keeps the buffers apart |
| Batching.BatchesAreStoredInOrder | internal/ingest/linksystem.go:397-478 | in every run the buffer being filled is not one being read, what is stored is the first of the batches, and success is returned exactly if all are stored |
| Batching.NoDeadlock | internal/ingest/linksystem.go:407-470 | until the call returns some step can be taken |
| Batching.RunsEnd | internal/ingest/linksystem.go:407-470 | no run has more than 3n + 5 steps for n multihashes |
| Batching.BatchesAmountToOneCall | internal/ingest/linksystem.go:480-491 | storing the batches changes the index as one call with everything would, for puts and for removals |
| Batching.StoredIff | internal/ingest/linksystem.go:480-491 | a multihash is in the index after some batches exactly if it was in it or is in a batch, for puts; exactly if it was and is in none, for removals |
| Batching.ValidNext | internal/ingest/linksystem.go:418-428 | the multihashes to be batched are those that decode, in order |
| Batching.CallChangesIndex | internal/ingest/linksystem.go:397-491 | when a call has returned success, every given multihash that decodes is put, or removed; after a failure each is that or as it was; all others are as they were |
| Batching.RunsAreIndexed | internal/ingest/linksystem.go:397-478 | every finished run is one of the outcomes that the outer batching assumes |
| Batching.IndexedIsReached | internal/ingest/linksystem.go:397-478 | and each of these outcomes is that of some run |
| Batching.IndexedIsPrefix | internal/ingest/linksystem.go:397-478 | such an outcome stores a prefix, and everything exactly if it is a success |
| Batching.IndexHamt | internal/ingest/linksystem.go:272-306 | of the batches of consecutive groups of n keys the first ones are stored, in order, and all of them exactly if no call failed |
| Batching.HamtBatchesHoldValidKeys | internal/ingest/linksystem.go:272-306 | those batches hold the valid keys in order |
| Batching.CollectionIsOneBatch | internal/ingest/linksystem.go:290-306 | a group is stored as one batch of its valid keys, or not at all |
| Sequences.ReplayMeansClash | internal/registry/sequences.go:29-59 | behind every number accepted twice there is a garbage collection as late as both checks |
| Sequences.SafeRejectsReplay | internal/registry/sequences.go:29-59 | on safe schedules the numbers accepted for each peer strictly increase, although old ones are forgotten |
| Sequences.UnsafeAllowsReplay | internal/registry/sequences.go:29-59 | on every other schedule some number is accepted twice |
| Sequences.ReplayRejectedIffSafe | internal/registry/sequences.go:29-59 | so a schedule rejects all replays if and only if no check reads a clock as early as a garbage collection that followed such a check |
| Sequences.AdvancingClockRejectsReplay | internal/registry/sequences.go:29-59 | with a clock that strictly advances between calls all replays are rejected exactly if no check, garbage collection and check straddle the moment that is the maximum age after the epoch |
| Sequences.ClashesStraddle | internal/registry/sequences.go:31-51 | because only there a floor wraps around |
| Sequences.SameTimeAllowsReplay | internal/registry/sequences.go:46-59 | a clock that does not go back is not |
| Sequences.SequenceChecker.Check | internal/registry/sequences.go:29-44 | which numbers are refused as too old, and which as not above the last one, in terms of the clock, the maximum age and what is remembered; what is accepted is remembered |
| Sequences.SequenceChecker.Retire | internal/registry/sequences.go:46-59 | exactly the numbers whose maximum age has passed are forgotten |
| Expiry.ExpiryTimeline | internal/registry/registry.go:813-861 | over any history of contacts, registrations and polls, with any intervals at each poll, a provider is gone exactly if a poll since its last contact came that poll's interval + stopAfter after it, and otherwise inactive exactly if one came its interval + 2 * retryAfter after it |
| Expiry.PollsAfterContact | internal/registry/registry.go:826-853 | in numbers: after a contact at t, with polls by the same intervals, a provider is gone once one comes at t + interval + stopAfter or later, and inactive once one comes at t + interval + 2 * retryAfter or later |
| Expiry.SilentProviderGoes | internal/registry/registry.go:829-848 | with polls at most R apart, none with an interval + stopAfter above P, a silent provider is gone by last contact + P + R |
| Expiry.PollLeavesAsIsIff | internal/registry/registry.go:826-853 | a poll leaves what is known of a provider as it is exactly if its last contact is known and not too long ago |
| Expiry.PollLeavesAsIsOverHistory | internal/registry/registry.go:826-853 | the same over any history: exactly if the poll is not the first of a silence without contact, nor the first to find it too long |
| Expiry.PolledAsConfiguredIff | internal/registry/registry.go:813-824 | whatever the order of the providers, polls go by the configured intervals exactly if all polled providers have intervals of their own or these equal everybody's |
| Expiry.UsedIsOwnOrCarried | internal/registry/registry.go:821-824 | the intervals that one provider is polled by, in any order: its own, or those that an earlier one has left behind |
| Expiry.OrderDecidesRemoval | internal/registry/registry.go:816-848 | a provider that is removed in one order and left alone in another |
| Registry.Registry.ExpiryHolds | internal/registry/registry.go:813-861 | the timeline holds of each provider's own history in every registry that any sequence of loading, registering, updating, polling and removing leads to |
| Registry.Registry.PollOne | internal/registry/registry.go:816-853 | one provider with a publisher goes through the step that the timeline is about, and removal reaches memory, disk and the deleted flag |
| Registry.Registry.PollProviders | internal/registry/registry.go:813-861 | in any order, every provider with a publisher goes through that step by the intervals that the order leads to, and memory and disk still agree; its information is left as it is exactly if the condition above holds or it is not polled |
| Registry.RemovedIs | internal/registry/registry.go:863-880 | what is on disk after the removal of several providers, and whose last write failed |
| Registry.PollChanges | internal/registry/registry.go:826-830 | a provider without contact whose information a poll changes under a reference that was found before |
| Registry.FirstPollChanges | internal/registry/registry.go:728-830 | any provider with a publisher that was just loaded is one |
| Registry.Registry.constructor | internal/registry/registry.go:141-196 | a registry that starts on what is persisted is empty but for what is loaded, agrees with the disk up to what policy refuses, and every provider is where an empty history puts it |
| Registry.Registry.LoadPersistedProviders | internal/registry/registry.go:728-774 | loading indexes nothing out of range and loads exactly what policy allows, with the publisher's address filled in |
| Registry.FillInIs | internal/registry/registry.go:762-772 | what loading fills in: a provider that is its own publisher, without an address as one, gets its first address; nothing else changes |
| Registry.Restart | internal/registry/registry.go:728-774 | a restart, maybe with another policy, brings back exactly what the new policy allows of the providers there were and of those the old policy refused, with all that is persisted, apart from those whose last write failed |
| Registry.Registry.SyncPersistProvider | internal/registry/registry.go:709-726 | a write that succeeds makes disk agree with memory on this provider again |
| Registry.Registry.SyncRegister | internal/registry/registry.go:683-691 | memory and disk agree after a registration, and disagree at most on this provider if the write fails |
| Registry.Registry.SyncRemove | internal/registry/registry.go:863-880 | the same for a removal |
| Registry.Registry.ProviderInfo | internal/registry/registry.go:501-513 | an inactive provider is not found |
| Registry.Registry.Register | internal/registry/registry.go:317-358 | the first refusal that applies, or the registration |
| Registry.RefusalIs | internal/registry/registry.go:317-343 | what a provider and its publisher need so that they are not refused, and the order of the refusals |
| Registry.Registry.RegisterOrUpdate | internal/registry/registry.go:400-486 | when it panics and when policy is asked; else the record is, field by field, what is given or what was known, with the given ad dated now exactly if it is another one than before; memory and disk after it |
| Registry.Registry.RegisterKnown | internal/registry/registry.go:401-486 | the same when other actions of the registry came between the lookup and the registration |
| Registry.UpdateRecord | internal/registry/registry.go:401-466 | the record that results, field by field, whether policy is to be asked, or a panic |
| Registry.ReplacedIsUpdated | internal/registry/registry.go:401-457 | there is one record only whose fields are as said: each address given, in order; the ad and its time; the publisher and its first address, or the provider's; the discovery address |
| Registry.RepeatedUpdate | internal/registry/registry.go:401-457 | the same update again changes nothing, but for filling in a publisher address that is missing |
| Registry.UpdatesThatPanic | internal/registry/registry.go:419-464 | two calls that panic |
| Registry.PublisherAddrMissingIff | internal/registry/registry.go:401-457 | a provider that is its own publisher is left without a publisher address exactly if it was not known and no publisher address was given |
| Registry.SelfRegistered | internal/registry/registry.go:427-457 | such a registration, and the next update fills the address in as loading would |
| Registry.Registry.RemoveProvider | internal/registry/registry.go:612-630 | the provider is gone from memory and disk and marked for deletion, and nothing of the others changes |
| Registry.StringsToMultiaddrs | internal/registry/registry.go:883-897 | all addresses, one by one and in order, or a failure if one does not parse |
| Discovery.CleanupKeepsAnswers | internal/registry/registry.go:789-811 | cleaning up changes no present or future answer |
| Discovery.NeedDiscoverFollowsRule | internal/registry/registry.go:693-707 | the bookkeeping that forgets answers as the rule on full records does |
| Discovery.Discoveries.SyncNeedDiscover | internal/registry/registry.go:693-707 | the answer by the bookkeeping and by the rule: in progress exactly if one is running, too soon exactly if one completed less than the wait ago |
| Discovery.Discoveries.SyncStartDiscover | internal/registry/registry.go:636-649 | a discovery starts exactly if none of the address is running and none completed less than the wait ago; at most one runs |
| Discovery.Discoveries.Complete | internal/registry/registry.go:660-665 | completion records the time in a map that is not nil |
| Discovery.Discoveries.Cleanup | internal/registry/registry.go:789-811 | exactly the entries without effect are deleted, and an emptied map becomes nil |
| Finder.FinderHandler.Find | server/finder/handler/finder_handler.go:40-108 | whatever background deletions run when, there is a response exactly if the indexer fails on no multihash, and it has, in the order of the request, a result for each multihash under which the index at the start has a value of a provider that the registry has and that is active, with all of these in order and the registry's addresses; what is left of other providers is scheduled for deletion, and nothing of these is |
| Finder.StaleIffAbsentOrInactive | server/finder/handler/finder_handler.go:59-80 | the context of a value is scheduled for deletion exactly if its provider is absent or inactive |
| Finder.SparesRegisteredIff | server/finder/handler/finder_handler.go:77-80 | the values of registered providers are left alone exactly if none of these is inactive |
| Finder.InactiveIsDeleted | server/finder/handler/finder_handler.go:59-80 | a registered inactive provider whose value is deleted |
| Finder.LookUp | server/finder/handler/finder_handler.go:60-81 | the registry's answer to one lookup |
| Finder.FinderHandler.FindOne | server/finder/handler/finder_handler.go:45-102 | the result for one multihash, with all values of active providers in order, or none if there is no such value |
| Finder.FinderHandler.FindValues | server/finder/handler/finder_handler.go:54-90 | the results of registered providers in order, and a deletion for exactly the contexts of those that the registry does not have or holds to be inactive |
| Finder.FinderHandler.RunDeletions | server/finder/handler/finder_handler.go:68-73 | deletions keep every result |
| Finder.DeletionKeepsResults | server/finder/handler/finder_handler.go:63-76 | deletions for unregistered providers cannot be seen in any later find |
| Finder.ProviderResultsAreRegistered | server/finder/handler/finder_handler.go:54-90 | every result is a value of a registered provider, with the registry's addresses |
| Finder.RegisteredAreInProviderResults | server/finder/handler/finder_handler.go:54-90 | every value of a registered provider has a result |
| Finder.ProviderResultsAreAll | server/finder/handler/finder_handler.go:54-90 | the provider results are those of the values of registered providers, all of them, in order, and no others |
| Finder.AllResultsAnswer | server/finder/handler/finder_handler.go:40-108 | a response lists a nonempty result for exactly the requested multihashes that have such a value, in the order of the request |

## Left out

- Chain.GapFreeExactlyOnce: is about a chain of one provider; `Ingester.OtherProviderIsLeftOut` shows that it does not hold of the chain of a publisher with several.
- Chain.QuiescenceMeansProcessed: assumes that an unprocessed advertisement loads (unloadable ones are skipped at `internal/ingest/ingest.go:741-751`), that marking succeeds in the datastore (its errors are only logged), and no sync with a depth limit and no resync, after which latest-sync does not name the newest processed advertisement.
- Ingester.Ingester.IngestWorkerLogic: does not say that the registry ends up as without skipping, because a skipped advertisement does not register its provider.
- Staging.TokensMatchAssignments: does not promise that every deferred announce is handled; one that is stored after a worker has looked waits for the worker's next turn.
- Pool.NoDeadlock: the pool keeps its size; `internal/ingest/ingest.go:706-718` can change it while workers run.
- Listeners.EventHub.Distribute: a call sends to all listeners without blocking; the machine of `Listeners.CancelCanGetStuckIff` has the blocking, the mutex and all listeners, with the events that are to come as a list.
- Batching.BatchesAreStoredInOrder: is about batch sizes of at least one, fixed during the call, and counts a failing call of the indexer as storing nothing.
- Message.FinderMessage.UnmarshalData: data are values, so reuse of the old buffer and the difference between nil and empty data are not in the model.
- Decoding.SkipIsOneField: an index past the end of the input, which the skipper may return and its caller checks, is outside of it; `Message.SkipField` covers it.
- Registry.Registry.PollProviders: no delivery on the sync channel, which is best effort.
- Registry.Registry.RemoveProvider: no send on the sync channel, on which the call waits for the ingester.
- Registry.Registry.RegisterOrUpdate: is one call; `Registry.Registry.RegisterKnown` is its second part, before which other actions of the registry may have run.
- Finder.FinderHandler.Find: the registry does not change during a find.
- Registry.Registry.SyncRegister: a write either succeeds or fails with nothing written; a registry without a datastore and the JSON of the records are not modelled.
- Sequences.SequenceChecker.Check: times are from the epoch on and the maximum age is not negative; both are below 2^63.
- Traversal of chains, publishing, signatures, HTTP, the value store's engine, HAMT internals and IPLD codecs: libraries and I/O, which appear as parameters or arbitrary steps.
- Syncing entry chunks and the classes of its errors, as a loop of its own: its outcome is part of `Attempt`.
- Allow and publish policies, rate limits, metrics, the command line and the daemon: easy members or plumbing.
