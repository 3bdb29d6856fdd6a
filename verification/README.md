# Verified model of the amo_crm call platform

A Dafny model of four stateful parts of the platform, with proofs about whole runs of each:

- **Speech shaping** (`Seqs`, `Pcm`, `ChunkAligner`, `RealtimeOptimizer`, `OptimizerTheorems`, `Ramp`, `VoicedFirstGate`,
  `GateTheorems`, `SpeechPipeline`): PCM16 bytes from a speech provider are cut into frames, freed of silence at both
  ends, re-chunked, opened by the voiced-first gate and aligned to whole samples. The classes update their buffers and
  counters as the originals do; `Pushed`, `Flushed`, `Next` and `Passed` say on values what a call does, and the theorem
  modules prove what that means for a stream.
- **Warm transfer** (`TransferModel`, `TransferSpec`, `TransferService`, `TransferTheorems`, `TransferLock`): one transfer
  request over a call row and a transfer record, against every possible engine and caller (`World` gives one answer per
  engine call and one caller state per wait); and any interleaving of different requests for one call under the row
  lock, with other writers of the row in between.
- **Line inventory** (`MangoModel`, `MangoSync`, `MangoTheorems`, `MangoClient`, `MangoExtensions`, `MangoFallback`): the
  sync of cached telephony lines with the Mango list, which lists the client can hand to it, and the extension list
  merged from live and remembered data.
- **Rate limits** (`FixedWindow`, `AbusePolicy`, `AbuseRuns`, `AbuseVerdicts`, `AbuseTheorems`): the Redis counters and
  cooldown keys and the caps counted from the call table. Keys are values of a datatype, which `Text` spells as in Redis
  and `KeysSpelledApart` tells apart. Times are milliseconds.

`dafny verify dfyconfig.toml` checks everything.

## What turned out

- The optimizer's output is one slice of the padded input, and its chunks depend on the bytes alone
  (`OutputIsOneSlice`, `SameBytesSameChunks`), for every frame size and every silence test.
- The gate keeps every voiced sample, whatever the chunks, if and only if the fade window is at most one sample longer
  than the preserved window or the threshold makes all samples or none voiced (`VoiceKeptExactlyWhenFadeFits`); the
  default settings satisfy this (`ShortFadeFits`). So every voiced sample of every frame with speech reaches the output
  queue (`Speak`).
- A transfer ends in one of seven ways, each decided by the engine's answers and the caller (`OutcomeExactly`): it
  succeeds if and only if some manager answers after nothing but failed dials, no reading finds the caller gone, and
  whisper and bridge are done.
- A manager leg that answered is bridged on success and otherwise hung up once, if it has an identifier; a leg without
  one is never hung up (`EveryLegSettled`).
- Status writes follow the documented graph if and only if the call was in progress and the caller did not leave at a
  moment after which the service writes without reading the call again: the last dial that fails, a whisper that fails,
  or the bridging (`WritesFollowGraphExactly`, with a failing run in `UnseenDeparture`). A caller who leaves while the
  legs are bridged is recorded as connected. The service's own writes, read in sequence, always form a path of the graph
  when the call was in progress (`OwnWritesFormPath`).
- A status change by somebody else during a run presupposes a writer that the service's `SELECT ... FOR UPDATE` does not
  keep out. Where it keeps every writer out, nobody leaves unseen and the graph is followed (`AloneFollowsGraph`).
- A database session that holds a copy of the call and does not refresh it on reading answers every check for a hang-up
  with the service's own last write. Then no run ever finds the caller gone, and each does what it would have done had
  the caller stayed (`CopyIgnoresCaller`). All theorems about transfers cover both ways of reading.
- At most one transfer of a call is ever recorded, if and only if no session loads the call before its request takes the
  lock, and other writers of the row cannot take the call from where a recorded transfer leaves it to a status in which
  it can be transferred (`AtMostOneExactly`). Neither holds of the application:
  - The endpoint loads the call first (`app/api/v1/transfers.py:56`), in the session in which the service then locks it
    (`app/repositories/call_repo.py:23-26`, without refreshing what is loaded), so that the guard tests the status from
    before the lock. Two such requests can both record a transfer, with no other writer involved (`TwoByStaleCopy`).
  - Writers that keep to the status graph never lead back. The webhook processor does: it puts any mapped status, or
    `NEEDS_TRANSFER`, over any status that is not terminal (`WebhooksReopen`).
  - In all runs every record beyond the first is paid for by such a write or such a copy (`TransfersAccounted`).
- If a failing request is rolled back, the next one passes the guard again (`RolledBackPassesAgain`).
- Every verdict of the abuse checks is decided by the requests before and the rows there are (`VerdictExactly`).
- Calls that have not ended exceed their cap by at most the rows inserted without a check (`ConcurrencyCapHolds`). The
  cap per phone and day counts rows under the text as sent, while rows carry its stored form
  (`app/api/v1/calls.py:96`, `app/services/call_service.py:81`): it holds in all runs if and only if every text is stored
  as it is (`DailyCapExactly`), and a text that is not, such as the number with a leading 8 that
  `app/schemas/call.py:23` gives as an example, is not capped at all (`OtherFormUncapped`). In the same way two
  spellings of one phone have separate cooldowns (`PhonesApartExactly`).
- A window of a fixed-window limit can be entered late and followed at once by the next: any interval as long as a
  window admits at most `2 * limit - 1` requests, and that many are possible (`IntervalBound`, `IntervalBoundReached`).
- A sync repeated with the same remote data changes only sync times, also when a remote identifier comes twice. With
  extension data missing this holds exactly when the remote lines of each identifier settle (`DegradedSyncExactly`), as
  equal ones do (`DegradedSyncStable`). The client's lists have distinct identifiers while a primary phone number is
  configured, as it is by default (`OneNumberStable`); without one, two lines under one identifier can make an extension
  change (`RepeatedRemoteUnstable`).

Where the code and its documentation differ, the model follows the code:

- `app/integrations/transfer_engine/base.py:81` and the comment at `app/services/transfer_service.py:286` call a whisper
  failure non-fatal; the code stops the call and raises.
- `app/services/transfer_service.py:24` says `FAILED_ALL_UNAVAILABLE` is set when there are no managers; no record exists
  then, and the status is never written (`EveryExitPaired`).
- A failing transfer is written to the row and the record, but the endpoint turns the error into an HTTP error and the
  session then rolls back (`app/api/v1/transfers.py:69-77`, `app/db/session.py:31-35`). `TransferLock` covers both
  policies.
- `app/core/config.py:329` describes the phone cooldown as following a failed attempt; the code starts it when a call is
  accepted. The setting `rate_limit_transfer_per_call` (`app/core/config.py:322`) is not read by any check.

## Model

| member | source | states |
|---|---|---|
| ChunkAligner.Pcm16ChunkAligner.Push | app/core/audio_utils.py:38-50 | what goes out is even and, followed by the new carry, is the old carry followed by the chunk; at most one byte stays; all counters |
| ChunkAligner.Pcm16ChunkAligner.Flush | app/core/audio_utils.py:52-62 | the carried byte leaves, padded to a sample unless padding is off, and nothing stays |
| ChunkAligner.AlignStream | app/core/audio_utils.py:31-62 | over any split of a stream: every output is whole samples, together they are the even prefix, and the flush completes the even padding |
| Pcm.BytesForDuration | app/core/audio_utils.py:468-473 | targets are positive and even for every duration, so both loops of the optimizer end |
| Pcm.BytesForDurationMonotone | app/core/audio_utils.py:468-473 | a longer duration never gives a smaller target |
| Pcm.BytesForWholeMillis | app/core/audio_utils.py:468-473 | whole milliseconds take exactly 32 bytes each |
| Pcm.BytesForDurationNearest | app/core/audio_utils.py:468-473 | any duration is met to within rounding, and none gives one sample |
| Pcm.HundredthsError | app/core/audio_utils.py:476-479 | the recorded duration is within half a hundredth of a millisecond of the true one, exact for multiples of 8 bytes, and even halfway |
| Pcm.EvenPadMeaning | app/core/audio_utils.py:384-389 | padding adds a zero byte at the end of an odd length and nothing else |
| Pcm.SampleMeaning | app/core/audio_utils.py:130-135 | a sample is the little-endian signed number of its two bytes |
| Pcm.DecodeEncode | app/core/audio_utils.py:209-217 | decoding encoded samples gives them back |
| Pcm.EncodeDecode | app/core/audio_utils.py:209-217 | encoding the samples of whole-sample bytes gives the bytes back |
| RealtimeOptimizer.FromMillisValid | app/core/audio_utils.py:330-347 | the constructor's arguments give a valid configuration exactly when frames are not empty, even exactly when the frame size is; targets take 32 bytes a millisecond, and the silence windows the whole frames of 20 ms |
| RealtimeOptimizer.Pcm16RealtimeOptimizer.constructor | app/core/audio_utils.py:349-362 | a new optimizer holds nothing |
| RealtimeOptimizer.Pcm16RealtimeOptimizer.AppendEmitBytes | app/core/audio_utils.py:454-461 | one target is fixed per append; all full pieces leave, the rest stays buffered |
| RealtimeOptimizer.Pcm16RealtimeOptimizer.ProcessFrame | app/core/audio_utils.py:425-452 | a frame is dropped, held back or emitted after the held-back ones, as the specification function says |
| RealtimeOptimizer.Pcm16RealtimeOptimizer.Push | app/core/audio_utils.py:364-380 | a push folds all complete frames of carry and chunk and keeps the rest; returned pieces are exactly what was emitted |
| RealtimeOptimizer.Pcm16RealtimeOptimizer.Flush | app/core/audio_utils.py:382-423 | the padded rest is processed, the first held-back frames leave, the others are counted as dropped, the buffer is emptied; the telemetry reports all counters |
| RealtimeOptimizer.SilenceRatio | app/core/audio_utils.py:417-421 | the silent frames of those and the frames' worth of bytes that went out, never of none |
| OptimizerTheorems.LeadRunMeaning | app/core/audio_utils.py:437-442 | the leading run is the longest silent prefix of the frames |
| OptimizerTheorems.TrailRunMeaning | app/core/audio_utils.py:444-446 | the trailing run is the longest silent suffix of the frames |
| OptimizerTheorems.SilentFramesCounted | app/core/audio_utils.py:428-433 | the counter of silent frames counts every silent frame once |
| OptimizerTheorems.FoldClosedForm | app/core/audio_utils.py:425-452 | after any frames: which were dropped, which are pending, and that exactly those between went to the emitter |
| OptimizerTheorems.PushBoundariesVanish | app/core/audio_utils.py:364-380 | pushing chunks one by one leaves the state that pushing their concatenation leaves |
| OptimizerTheorems.SameBytesSameChunks | app/core/audio_utils.py:364-423 | the same bytes give the same sequence of emitted chunks, however they were split |
| OptimizerTheorems.ShapedByKeptFrames | app/core/audio_utils.py:364-461 | what is emitted is the chunking of the kept frames |
| OptimizerTheorems.OutputIsOneSlice | app/core/audio_utils.py:364-465 | the output is one contiguous slice of the padded input, from min(budget, leading run) frames on to the kept part of the final silent run; only silent frames lie outside |
| OptimizerTheorems.InteriorKept | app/core/audio_utils.py:425-452 | speech frames and silence between them are inside the slice |
| OptimizerTheorems.PaddedInputIsEvenPad | app/core/audio_utils.py:384-389 | with an even frame size the padded input is the input, plus a zero byte if it is odd |
| OptimizerTheorems.BytesConserved | app/core/audio_utils.py:364-465 | before a flush every byte pushed is emitted, buffered, carried, pending or counted as dropped |
| OptimizerTheorems.EmittedSizes | app/core/audio_utils.py:454-465 | startup-sized chunks first, then steady ones; only the last may be shorter and it is not empty |
| OptimizerTheorems.AtMostOneStartupChunk | app/core/audio_utils.py:454-461 | one startup chunk at most when a frame fits the startup target |
| OptimizerTheorems.EmittedSamplesWhole | app/core/audio_utils.py:454-465 | with even sizes every emitted chunk, also the last, has even length |
| OptimizerTheorems.ShapeUtterance | app/integrations/direct/session_manager.py:1553-1706 | one object pushed to and flushed emits what the theorems speak about, and its telemetry gives bytes, chunks, durations, trimmed frames and the silence ratio of the run |
| VoicedFirstGate.FirstVoicedIndex | app/core/audio_utils.py:130-138 | the index of the first sample at or above the threshold, if there is one |
| VoicedFirstGate.FirstVoicedMeaning | app/core/audio_utils.py:130-138 | nothing before the first voiced sample is voiced |
| Ramp.ScaledBound | app/core/audio_utils.py:214-216 | fading never amplifies or flips a sample and leaves it unchanged only at full scale or at zero |
| Ramp.FadeRamps | app/core/audio_utils.py:209-217 | sample i of a window of w becomes i / (w - 1) of itself, cut toward zero; no other sample changes |
| Ramp.FadeInPlace | app/core/audio_utils.py:210-216 | the in-place loop computes the ramp over the first samples and touches no other |
| VoicedFirstGate.ApplyFadeIn | app/core/audio_utils.py:199-217 | the faded bytes are the encoded ramp of the decoded samples, and every sample stays in range |
| VoicedFirstGate.TrimToFirstVoiced | app/core/audio_utils.py:166-196 | samples before the preserved window are cut and the rest faded; without a cut nothing is faded |
| VoicedFirstGate.Pcm16VoicedFirstGate.Push | app/core/audio_utils.py:249-306 | drop, open or pass, with every counter and the whole event of the opening |
| VoicedFirstGate.ShortFadeFits | app/core/audio_utils.py:228-234 | a fade no longer than the preserved time fits, after rounding both to samples |
| VoicedFirstGate.WindowsMeaning | app/core/audio_utils.py:180-207 | windows of whole milliseconds take 16 samples each |
| GateTheorems.OpenGatePassesAll | app/core/audio_utils.py:253-254 | after the first emission everything passes untouched |
| GateTheorems.GateExactly | app/core/audio_utils.py:249-306 | the first chunk that has a voiced sample or exceeds the budget opens the gate; none before leaves, it leaves cut and ramped, those after as they are; the recorded times, counters and place of the first voice |
| GateTheorems.ClosedExactly | app/core/audio_utils.py:262-275 | the gate stays closed if and only if no sample is voiced and the recorded durations sum to no more than the budget; meanwhile nothing leaves and every non-empty chunk is counted |
| GateTheorems.OpeningMeaning | app/core/audio_utils.py:166-196 | of the chunk that opens the gate exactly what precedes the preserved window is cut, and the rest ramped up; without a cut it is kept to whole samples |
| GateTheorems.GateKeepsVoice | app/core/audio_utils.py:249-306 | over any run of any chunks, read chunk by chunk as the gate reads them: the output is a suffix of the input samples cut before any voiced one, with every voiced sample and every sample past the fade window unchanged in place |
| GateTheorems.WholeStreamKeepsVoice | app/core/audio_utils.py:249-306 | the same of the bytes of the stream when no chunk splits a sample, and then the output has whole samples |
| GateTheorems.TrimmingKeepsVoiceExactly | app/core/audio_utils.py:184-196 | for one chunk, the exact condition on cut, fade and preserved window under which voice survives |
| GateTheorems.VoiceKeptExactlyWhenFadeFits | app/core/audio_utils.py:166-217 | all runs keep their voiced samples if and only if the fade is at most one sample longer than the preserved window, or the threshold makes all samples or none voiced |
| GateTheorems.DropsWithinBudget | app/core/audio_utils.py:262-275 | chunks dropped whole last no longer than the budget, up to the rounding of each recorded duration; the two drop counters add up |
| SpeechPipeline.Speak | app/integrations/direct/session_manager.py:1553-1790 | optimizer, gate and the session's aligner together queue whole samples that have every voiced sample of every frame with speech of the padded input at its place; the aligner is left empty |
| SpeechPipeline.SpeechKept | app/core/audio_utils.py:364-465 | what keeps the voice of the optimizer's slice has every voiced sample of every frame with speech of the whole utterance |
| SpeechPipeline.SpeakAll | app/integrations/direct/session_manager.py:1219-1220 | so it is for each of several utterances through one aligner |
| TransferService.TransferService.InitiateTransfer | app/services/transfer_service.py:99-465 | the guard tests the session's copy if there is one; every refusal leaves everything untouched; otherwise call, record and all requests to the engine are those of the specification run |
| TransferService.TransferService.TryManagers | app/services/transfer_service.py:162-465 | the retry loop computes the recursive specification of the attempts |
| TransferService.TransferService.BriefManager | app/services/transfer_service.py:247-343 | from an answered leg to the end of the whisper |
| TransferService.TransferService.BridgeCalls | app/services/transfer_service.py:345-436 | from the last reading of the call to the bridged or failed end |
| TransferService.TransferService.StopCall | app/services/transfer_service.py:441-449 | a failure sets the record, asks for the customer leg to be ended and stops the call |
| TransferService.TransferService.SafeTerminateManagerCall | app/services/transfer_service.py:558-571 | a leg is ended only if it has an identifier |
| TransferService.TransferService.SafeTerminateCustomerLeg | app/services/transfer_service.py:573-588 | the customer leg is ended only if it is known and the engine can |
| TransferService.TransferService.MarkCallerDropped | app/services/transfer_service.py:522-545 | the record says the caller dropped; the call row is not touched |
| TransferTheorems.EveryLegSettled | app/services/transfer_service.py:203-436 | at most one leg answers; on success it is briefed and bridged to the telephony leg, the Vapi call or the call itself, whichever is known first, and otherwise hung up once if it has an identifier |
| TransferTheorems.EveryExitPaired | app/services/transfer_service.py:141-465 | record and call agree at every exit, a dropped call keeps the status somebody else gave it, the customer leg is ended exactly when the service stops the call, and the guard is shut afterwards |
| TransferTheorems.OutcomeExactly | app/services/transfer_service.py:162-465 | each of the seven ways to end holds if and only if a condition on the engine's answers and the caller does, with its own failure stage |
| TransferTheorems.AnswerKept | app/services/transfer_service.py:203-275 | which manager answered by which leg, and what record and call keep of it once the briefing starts |
| TransferTheorems.GuardMeaning | app/models/call.py:40-97 | the guard lets through exactly the statuses before a transfer, and the terminal ones are those without an edge |
| TransferTheorems.WritesFollowGraphExactly | app/models/call.py:48-97 | every status written is an allowed edge from what the row says then exactly when the call was in progress and its caller did not leave unseen, for sessions that read the row and for sessions that read their copy |
| TransferTheorems.UnseenDeparture | app/services/transfer_service.py:438-449 | a run from a call in progress, in a session that reads the row, that writes to a call that has ended |
| TransferTheorems.CopyIgnoresCaller | app/services/transfer_service.py:512-520 | a session that reads its copy never finds the caller gone, and ends as if the caller had stayed |
| TransferTheorems.AloneFollowsGraph | app/services/transfer_service.py:469-489 | when nobody else changes the row, a run from a call in progress follows the graph throughout |
| TransferTheorems.OwnWritesFormPath | app/models/call.py:48-97 | whatever others do, the statuses the service itself writes form a path of the graph exactly when the call was in progress |
| TransferTheorems.RunSelectsPrefix | app/services/transfer_service.py:162-245 | the selected managers are a prefix of the bounded candidates, those before the last failed and were marked, the attempt count is the prefix length |
| TransferTheorems.NoAnswerExactly | app/services/transfer_service.py:438-465 | no answer is recorded exactly when the whole bounded list fails to be dialled with no reading finding the caller gone |
| TransferTheorems.CandidatesMeaning | app/services/transfer_service.py:491-510 | candidates are exactly the free managers of the department, or of all if it has none, in order of priority and age |
| TransferTheorems.AvailableMeaning | app/repositories/manager_repo.py:21-41 | the query returns exactly the matching active and available managers, in order, none twice |
| TransferTheorems.TriedMeaning | app/services/transfer_service.py:159-162 | exactly the first managers up to the limit are tried, zero meaning no limit, and nobody twice |
| TransferLock.TransfersAccounted | app/services/transfer_service.py:469-489 | in every interleaving of any requests, early loads and other writers: records committed, shuttings without a commit and the guard still open add up to the guard at the start, reopenings by others and passes by stale copies; requests that passed are those committed, rolled back or at work |
| TransferLock.AtMostOneExactly | app/services/transfer_service.py:469-489 | at most one record is committed in every interleaving if and only if no session loads the call before it locks it and other writers have no path from where a committed transfer leaves the call to a status that can be transferred |
| TransferLock.TwoByStaleCopy | app/api/v1/transfers.py:54-77 | a run in which two sessions load the call, then lock it one after the other, and both connect and commit, without any other writer |
| TransferLock.FurtherByStaleCopy | app/repositories/call_repo.py:12-26 | with writers none of whose writes opens the guard, every record beyond the first was committed by a stale copy |
| TransferLock.OpeningOutOfReach | app/services/transfer_service.py:469-489 | a write that would open the guard is harmless where no committed transfer leads to it |
| TransferLock.AtMostOneTransfer | app/services/transfer_service.py:469-489 | if besides no session loads early: in every interleaving at most one record is committed and at most one transfer connects; if failures are committed, at most one request passes the guard |
| TransferLock.GraphAtMostOne | app/models/call.py:48-97 | so it is with writers that keep to the status graph and sessions that do not load early |
| TransferLock.WebhooksReopen | app/integrations/vapi/event_processor.py:185-207 | a run in which a webhook takes a connected call back and a second transfer is committed |
| TransferLock.RolledBackPassesAgain | app/api/v1/transfers.py:69-77 | a run in which two requests pass the guard and both are rolled back |
| TransferLock.NoManagerNoTrace | app/services/transfer_service.py:491-510 | a request without candidates can be struck from any run at any place without a difference |
| TransferLock.RetryStarts | app/services/transfer_service.py:491-510 | after any such requests in any run, one that has candidates starts exactly when it would have without them |
| MangoSync.TelephonyLine.Update | app/services/mango_telephony_service.py:125-145 | all fields of a line after one remote line, from its old extension and remembered match |
| MangoSync.IndexExtensions | app/services/mango_telephony_service.py:101-107 | each identifier and phone finds the last extension that names it |
| MangoSync.MangoTelephonyService.SaveAll | app/services/mango_telephony_service.py:109-149 | the loop applies the remote lines in turn and stops at a new identifier that repeats |
| MangoSync.MangoTelephonyService.DeactivateStale | app/services/mango_telephony_service.py:151-159 | unseen lines are off, no other line changes, and the count is that of the lines that were on |
| MangoSync.MangoTelephonyService.SyncLines | app/services/mango_telephony_service.py:72-173 | result and inventory of every case, also after a repeated new identifier; rows are never removed or replaced; after a success the lines of allowed numbers are returned, each once |
| MangoTheorems.SyncSucceedsExactly | app/services/mango_telephony_service.py:72-88 | when a sync succeeds and which error it gives otherwise; a failed one leaves the inventory as it was, or, at a repeated new identifier, with exactly the remote lines before it applied |
| MangoTheorems.AppliedPointwise | app/services/mango_telephony_service.py:113-149 | identifiers do not influence each other, and applying fails exactly when a new identifier is repeated |
| MangoTheorems.MatchMeaning | app/services/mango_telephony_service.py:101-112 | the last extension that names the line's identifier is matched, or else the last that names its phone, or else none |
| MangoTheorems.ExactMirror | app/services/mango_telephony_service.py:83-159 | each remote identifier has a line that carries its last remote line and the last extension that names the identifier, or else the phone; every other line is off and otherwise unchanged, nothing is deleted, the counts are exact |
| MangoTheorems.SyncIdempotent | app/services/mango_telephony_service.py:109-159 | a repeated sync succeeds, changes only sync times and switches nothing off |
| MangoTheorems.MemoryAfter | app/services/mango_telephony_service.py:119-145 | a line's extension and remembered match are what the last of its remote lines puts in place, or what they were |
| MangoTheorems.DegradedSyncExactly | app/services/mango_telephony_service.py:90-146 | after a full sync, one without extension data changes only sync times if and only if, for each identifier, what the remote lines alone put in place last is what they and their matches put there, and no match without a number makes a line outbound |
| MangoTheorems.DegradedSyncStable | app/services/mango_telephony_service.py:90-146 | in particular when the remote lines of an identifier do not differ and every extension has a number |
| MangoTheorems.DegradedLineExactly | app/services/mango_telephony_service.py:131-145 | for all remote lines of one identifier, the exact condition for that |
| MangoTheorems.SyncKeepsExtensions | app/services/mango_telephony_service.py:134-136 | no sync empties an extension number, not even one that stops at a repeated new identifier |
| MangoClient.NormalizeIdempotent | app/integrations/telephony/mango_client.py:465-494 | normalizing a phone number twice is normalizing it once |
| MangoClient.NormalizeMeaning | app/integrations/telephony/mango_client.py:465-494 | what a number becomes: international ones stay, ten and eleven digits get +7, others stay as they are |
| MangoClient.ClientLinesMeaning | app/integrations/telephony/mango_client.py:175-191 | of each identifier and allowed number the last parsed line, once, in the order in which they first came |
| MangoClient.ListLines | app/integrations/telephony/mango_client.py:175-191 | the parsed lines of allowed numbers, without duplicates |
| MangoClient.DeduplicateLines | app/integrations/telephony/mango_client.py:386-390 | the dictionary loop puts each line at the place of the first with its identifier and number |
| MangoClient.DeduplicatedMeaning | app/integrations/telephony/mango_client.py:386-390 | exactly the last line of each identifier and number is kept, once |
| MangoClient.DistinctExactly | app/integrations/telephony/mango_client.py:18-24 | identifiers in the client's list are distinct exactly when none comes under two allowed phone numbers |
| MangoClient.OneNumberDistinct | app/integrations/telephony/mango_client.py:18-24 | so they are when a primary number is configured |
| MangoClient.OneNumberStable | app/services/mango_telephony_service.py:90-146 | and then a sync without extension data after a full one changes only sync times |
| MangoClient.RepeatedRemoteUnstable | app/integrations/telephony/mango_client.py:386-390 | without a primary number, a cached identifier under two phone numbers: both syncs succeed, and the second, without extension data, changes the extension |
| MangoExtensions.MergeExtensionItems | app/services/mango_telephony_service.py:266-287 | strictly sorted by extension, and holds exactly the merged item of each extension |
| MangoExtensions.MergedMeaning | app/services/mango_telephony_service.py:271-299 | the extensions are those of both sides; each field, and each value of the payload, is that of the last live item that says something, or else of the last cached item, or else of the first live one |
| MangoExtensions.LessMeaning | app/services/mango_telephony_service.py:287 | the order of the list is that of texts, decided at the first difference |
| MangoExtensions.MergeCoversBoth | app/services/mango_telephony_service.py:266-287 | every extension of either side is listed, none twice |
| MangoFallback.FallbackExtensions | app/services/mango_telephony_service.py:209-264 | one remembered extension per number; the final de-duplication removes nothing |
| MangoFallback.FallbackMeaning | app/services/mango_telephony_service.py:214-227 | exactly the numbers of active lines of allowed phones, none twice |
| MangoFallback.FallbackFromFirst | app/services/mango_telephony_service.py:225-260 | of several lines with one number the first speaks for it, and every field of the item comes from it: identifier, name, line, phone and payload by the first key that says something |
| MangoFallback.ListExtensions | app/services/mango_telephony_service.py:175-207 | with the API up or down every remembered number is listed once, besides the live ones, each described by its first line; the source is the cache exactly when nothing live came and something is remembered; errors when not configured, or when there is neither |
| FixedWindow.Redis.IncrExpire | app/core/rate_limit.py:36-46 | the script counts within a live key and sets the expiry only on the first hit of a window |
| FixedWindow.RateLimiter.CheckFixedWindow | app/core/rate_limit.py:51-96 | admission by the count; without Redis or on an error the request passes and nothing is counted |
| FixedWindow.CounterIsHistory | app/core/rate_limit.py:36-46 | the counter is the number of arrivals in its window, rejected ones included, and its expiry that of the window's first arrival |
| FixedWindow.AdmissionIsHistory | app/core/rate_limit.py:72-87 | a request is admitted exactly when fewer than limit arrivals precede it in its window |
| FixedWindow.WindowQuota | app/core/rate_limit.py:72-87 | of a window's arrivals exactly as many are admitted as the limit allows |
| FixedWindow.IntervalBound | app/core/rate_limit.py:36-87 | an interval as long as a window, wherever it starts, admits at most 2 * limit - 1 requests |
| FixedWindow.IntervalBoundReached | app/core/rate_limit.py:36-87 | for every limit and window some run admits that many |
| AbusePolicy.AbusePolicy.CheckCallCreate | app/core/rate_limit.py:111-192 | the five checks in order with what each leaves in Redis, and the cooldown set on acceptance |
| AbusePolicy.AbusePolicy.CheckTransfer | app/core/rate_limit.py:217-266 | the transfer cooldown is read, then set |
| AbusePolicy.AbusePolicy.CheckSteer | app/core/rate_limit.py:194-215 | the steering counter of the call decides |
| AbusePolicy.CallTable.CountPhoneSince | app/core/rate_limit.py:275-282 | the number of rows of a phone since the start of the day |
| AbusePolicy.CallTable.CountNonTerminal | app/core/rate_limit.py:298-302 | the number of rows that have not ended |
| AbuseVerdicts.VerdictExactly | app/core/rate_limit.py:111-266 | every verdict of every run: the first condition that holds refuses, and a request is accepted if and only if none does; counters by the arrivals in their window, cooldowns by the accepted requests before, the daily cap by the rows from today on |
| AbuseVerdicts.StoreCooldown | app/core/rate_limit.py:149-266 | a cooldown key holds what the last accepted request that set it left |
| AbuseVerdicts.CountSinceMeaning | app/core/rate_limit.py:275-282 | the count behind the daily cap is that of the rows from the UTC day of the request on |
| AbuseTheorems.ConcurrencyCapHolds | app/core/rate_limit.py:295-313 | in every run, with or without Redis, calls that have not ended exceed the cap by at most the rows inserted without a check |
| AbuseTheorems.DailyCapHolds | app/core/rate_limit.py:270-293 | in every run of requests whose rows carry the checked text, so do calls per phone and day |
| AbuseTheorems.DailyCapExactly | app/services/call_service.py:76-111 | for rows that carry the stored form of the text: the daily cap holds in all runs if and only if every text is its own stored form, or nothing is let through anyway |
| AbuseTheorems.OtherFormUncapped | app/api/v1/calls.py:92-113 | a text that is not its own stored form gives any number of calls to one phone on one day |
| AbuseTheorems.AcceptedApart | app/core/rate_limit.py:149-266 | two accepted calls checked under one text, or two accepted transfers of one phone, are at least their cooldown apart, whatever happens in between, if Redis was up when the first set the cooldown and when the second read it |
| AbuseTheorems.PhonesApartExactly | app/core/rate_limit.py:149-192 | accepted calls to one stored phone are a cooldown apart in all runs if and only if no two texts are stored as one phone, or there is no cooldown, or nothing is let through anyway |
| AbuseRuns.RefusalLeavesCooldowns | app/core/rate_limit.py:149-266 | a refusal neither starts nor extends a cooldown, and call and transfer cooldowns do not touch each other |
| AbuseRuns.KeysSpelledApart | app/core/rate_limit.py:133-215 | no two keys of counters and cooldowns are spelled alike, whatever the texts in them |
| AbuseVerdicts.StoreMirrors | app/core/rate_limit.py:111-215 | in a run of mixed requests each counter holds what its own arrivals make of it |
| AbuseTheorems.RequestsPerMinuteBound | app/core/rate_limit.py:133-215 | over whole runs of mixed requests, any minute accepts at most 2 * limit - 1 calls of one API key, calls of one address, and steering requests of one call |

## Left out

- Silence test of a frame and the loudness tests behind the silence class of a chunk: floating-point statistics; they are arbitrary predicates here, so the theorems hold for every such test.
- Floating-point noise: milliseconds are exact reals or hundredths, ratios are fractions, the ramp of the fade is exact, and durations round half to even.
- Native byte order of the fade's sample array: little-endian, as on the platforms the service runs on.
- SpeechPipeline.Speak: is about what is handed to the output queue; a full queue drops its oldest chunk. A gate or an optimizer with odd sizes may leave a byte in the aligner, which the session pads when it closes the source.
- TransferService.TransferService.InitiateTransfer: summaries, whisper text, fallback messages and audit rows are not modelled; a call row deleted during a transfer and failures of the database are not either.
- A caller's hang-up is seen by the row only during waits for the engine or just before the call is read again.
- A session keeps the copy it loaded first until its request passes the guard, and refreshes it when it writes; whether a session reads the row or its copy again during a run is a parameter. A write of the status that the copy already has counts as a write.
- The transfer cooldown in front of the endpoint is not part of `TransferLock`: two requests can both read it before either sets it.
- Writers other than transfers replace the status of the row while the lock is free; what else they write, and engines polled for a status, are not modelled.
- TransferTheorems.AvailableMeaning: managers equal in priority and age keep the order of the table; the database promises none.
- The order in which the database returns lines, and the rollback of a sync that met a repeated new identifier: the model gives the rows written until then, which the caller's transaction discards.
- Parsing of Mango records: a parsed line carries a normalized phone number, which is all that the theorems about the client need; which characters are white space or digits is a parameter.
- MangoFallback.FallbackExtensions: JSON objects where a name or an identifier is expected count as absent; scalars stand for their text.
- FixedWindow.Redis.IncrExpire: a key is gone from its expiry time on; an error of Redis means the command had no effect.
- How a text is brought into its stored form: any function of the text and the kind of call; one that fails leaves no row.
- Concurrent requests between a check and what it guards: the cooldown and cap theorems are about sequential runs.
- HTTP clients, engines, drivers, migrations, the bot and the admin panel: input and output.
