# NotifyJS, verified

A Dafny model of the parts of NotifyJS whose correctness rests on state kept over long runs, and of
its hand-written algorithms. NotifyJS is an alerting hub: applications publish notifications and place
calls, devices pair with it over WebSockets, and the hub decides who hears what.

| module | what it models |
|---|---|
| `CallLog`, `Ladder`, `Calls` | the call orchestrator: a ladder of rungs walked in several passes, with answers, declines, disappearances, cancellations and timers |
| `Wire`, `Delivery` | delivery to one device over any number of sockets: replay, retries, snoozes, cumulative acknowledgements, restarts |
| `Client` | a device's connection: sockets, connect deadline, keepalive, backoff, and what stops it from retrying |
| `NoteLog`, `StoreLog` | the history cache, the queue, the append-only log, compaction, the sequence counter, crash and restart |
| `Restart` | the hub of `Delivery` on the store of `StoreLog`: one numbering, one history, one document |
| `TokenBucket`, `Bans`, `Guard`, `Sessions` | admission control and the sessions that hold its slots |
| `Glob`, `Channels` | channel patterns and the last-star matcher |
| `Roles`, `Access` | capabilities, and what admin frames can hand out |
| `Words`, `Sha256Spec`, `Sha256Constants`, `Sha256` | SHA-256, against FIPS 180-4 |
| `Texts`, `Versions`, `Canonical`, `PairingCode`, `WebPush` | version order, signature transcripts, pairing codes, push payloads |

Code that changes state is a class or a method with loops; each such method is proved against a
specification function, a relation between the old and the new state, or an invariant, and the main
results are lemmas about those. Ghost fields record histories the program does not keep (a call's log,
an address's admissions, the longest ban given, every state the disk was in, why a notification is not owed
any more), and `Valid()` ties the real fields to them.

## How the world enters

- Time is a number of milliseconds that never runs backwards. A timer is a field that says when it is due,
  or whether it is pending; `Tick` may not pass a due timer.
- Randomness, the network, the disk and foreign primitives are parameters: the jitter of a backoff, whether
  a socket takes a frame, whether a write succeeds, what `toUpperCase` and `toLowerCase` make of a text.
  Waiting for a signature check, or for the client's own storage, is part of one atomic step.
- Call ids, session ids and pairing codes are fresh. Sending a frame or emitting an event does not call back.
- A JavaScript string is a sequence of 16-bit code units where code units matter (`Texts`), a sequence of
  code points where they do (`WebPush`), and a Dafny string elsewhere.

## Where the code and its promises part

Each of these has a run or an input that shows it, and a statement of exactly when it happens.

- `sha256Sync` computes the padded length in 32-bit arithmetic. It is SHA-256 exactly for inputs of at most
  2^31 - 73 bytes and throws for every longer one (`Sha256Sync`, `PaddedLengthOverflows`).
- `fail` can report a ban that `putBan` did not keep: exactly when the store is full of running bans and does
  not know the address (`KeptUnlessFull`, `BannedInWordOnly`), which takes a policy that bans on the first
  failure (`Guard.Fail`).
- A failure can shorten a running ban: exactly when the ban it earns ends before the running one, which takes
  a store restored from a time of longer bans (`FailureExtends`, `Guard.Fail`, `RestoredUnderALongerMaximum`).
- A payload can be too large even with both texts cut (`EncodePayload` says exactly which), and cutting a text
  lengthens it exactly if it takes one or two bytes (`FitBody`, `FitTitle`, `LengthenedInVain`).
- The client's `status` is not always the reason it stopped. It is, after every event, unless a pairing
  signature is ready when no retry is to come any more (`SignedForPairing`, `LateSignature`) or a `ready`
  follows a refusal on the same socket (`ReadyFrame`); `StoppedSaysWhy` says what it then tells. The claim that
  a client is never silently stuck (`NeverSilentlyStuck`) rests on what the client was told, not on the status.
- "Only the connection that did the pairing" may move the client's cursor to the hub's newest number, says a
  comment. The flag outlives a socket lost between `paired` and `ready`, so exactly then the next connection's
  `ready` moves it (`ReadyFrame`, `CursorMovedLater`).
- The cache is the end of the log by number exactly when no failed append lost a line the cache still holds,
  and equal to it exactly when, besides, no mark on it is missing on the disk (`CacheIsTheEndOfTheLog`,
  `LineNotWritten`, `MarkNotWritten`); the next successful rewrite repairs both.
- A phone that rings when a call is answered elsewhere is sent one `taken` cancel for each of its places on the
  ladder: exactly one iff it has one place (`TakenNoticesMean`, `Answer`, `TakenTwice`). Every other cancel is
  sent exactly once (`Advance`, `CancelCall`).
- A snooze is to hold alerts, not to drop them. Of what is owed, a replay on a new connection leaves out
  exactly what the snooze on record filters, and no mark leads back to it (`Promote`). What was held from a
  connected session is among the frames of the next sync of a session that is not snoozed exactly if the snooze
  on record is over too; that session's copy of the record can be older (`Sync`, `Snooze`, `LiftedTooEarly`).
  The mark is given up either way, and also if the socket does not take all the frames (`LiftedInVain`). What
  was left out, or not taken, is shown by a later replay from the cursor exactly if the device has not
  acknowledged past it meanwhile and no snooze filters it then (`LostByAcknowledgingPast`): acknowledging a
  critical alert shown under the snooze loses it, acknowledging nothing does not (`SlippedAway`,
  `SlippedAndShown`).
- `roles.upsert` sanitises a role twice, and looks up the name of the first pass but writes that of the second.
  They are the same exactly if the name, cut to 64, does not end in white space (`SanitizedStays`,
  `NameCutInSpace`, `FrameRolesUpsert`); what the role may carry is the same either way.

## Model

| member | source | states |
|---|---|---|
| `CallLog.SoundingMeans` | packages/core/src/calls.ts:156-163 | reading the log, a phone sounds exactly when it was sent a `call` and nothing after that (answer, decline, disappearance, cancel) stopped it |
| `CallLog.DeclinedMeans` | packages/core/src/calls.ts:137-142 | a decline counts exactly until the ladder restarts |
| `CallLog.RungMeans` | packages/core/src/calls.ts:158-160 | `attempted` is duplicate-free and is exactly the set of devices sent a `call` |
| `CallLog.AnswerMeans` | packages/core/src/calls.ts:199-208 | a single recorded answer by a ringing device means one answer in the whole log, by that device, while it was ringing |
| `Ladder.NextRungIsFirst` | packages/core/src/calls.ts:129-154 | where the ladder goes next is the lexicographically first (pass, rung) from here on with somebody on it, and it is exhausted only if there is none |
| `Ladder.WholeBudget` | packages/core/src/calls.ts:133-144 | all passes together take (repeat + 1) times the delays and ring times of the non-empty rungs |
| `Calls.CallOrchestrator.Place` | packages/core/src/calls.ts:101-127 | `failed` iff no rung has a target; otherwise the call stands on the first non-empty rung, its timer armed, and every invariant holds |
| `Calls.CallOrchestrator.RunStep` | packages/core/src/calls.ts:129-179 | terminates even over empty rungs and restarts, and ends on the next non-empty rung with exactly its targets rung, or in the one final outcome |
| `Calls.CallOrchestrator.Start` | packages/core/src/calls.ts:156-171 | every target of the rung is rung once, in order, and the ring timer is armed |
| `Calls.RungOntoMeans` | packages/core/src/calls.ts:158-166 | ringing a rung writes one `call` for each target, in their order |
| `Calls.CallOrchestrator.Restart` | packages/core/src/calls.ts:133-143 | a new pass forgets declines and disappearances; clearing `ringing` silences nobody because nobody rings |
| `Calls.CallOrchestrator.Fire` | packages/core/src/calls.ts:169-175 | what a due timer does: the delayed rung rings, or the rung that rang is silenced and the ladder moves on |
| `Calls.CallOrchestrator.Advance` | packages/core/src/calls.ts:182-197 | each phone still ringing gets exactly one cancel before the next rung starts |
| `Calls.CallOrchestrator.Exhausted` | packages/core/src/calls.ts:373-388 | `declined` iff every device rung in any pass declined in the last one, else `missed` |
| `Calls.CallOrchestrator.Miss` | packages/core/src/calls.ts:390-408 | by then nobody rings, so the loop that would cancel sends nothing |
| `Calls.CallOrchestrator.Answer` | packages/core/src/calls.ts:199-235 | only a ringing device can answer; the promise is resolved with it, every other ringing phone is told the call is taken, once for each place it has on the ladder, nobody else is, and no other call changes |
| `Calls.CallOrchestrator.TellOthers` | packages/core/src/calls.ts:210-215 | the loop over all targets sends exactly one `taken` cancel for each place of the ladder held by a phone still ringing |
| `Calls.TakenNoticesMean` | packages/core/src/calls.ts:210-215 | a phone still to be told gets as many `taken` cancels as it has places on the ladder, so exactly one iff it has exactly one; any other device gets none |
| `Calls.TakenNoticesSilence` | packages/core/src/calls.ts:210-215 | reading the log, those cancels silence exactly the phones told that are on the ladder |
| `Calls.TakenTwice` | packages/core/src/calls.ts:199-215 | a run with a device on two rungs that is told twice that the call was taken |
| `Calls.CallOrchestrator.Decline` | packages/core/src/calls.ts:246-261 | only a ringing device can decline; the ladder moves on exactly when it was the last one ringing |
| `Calls.CallOrchestrator.Vanish` | packages/core/src/calls.ts:276-288 | the same for a device that went away, which does not count as declined |
| `Calls.CallOrchestrator.Dropped` | packages/core/src/calls.ts:327-344 | every call in the map sees the device go exactly once. Answered by it: dropped from the map and nothing else. It was the last phone ringing: the call goes on to the next rung there is, rung or delayed as that rung says, or is over with the outcome the log gives. One of several ringing: only that phone leaves. Otherwise untouched |
| `Calls.CallOrchestrator.Ended` | packages/core/src/calls.ts:307-324 | only the device that answered can end a call, and the outcome does not change |
| `Calls.CallOrchestrator.CancelCall` | packages/core/src/calls.ts:346-362 | whoever rings is sent exactly one cancel and nobody else any, an undecided call becomes `cancelled`, a decided one keeps its outcome |
| `Calls.CallOrchestrator.CancelAll` | packages/core/src/calls.ts:364-366 | afterwards no call is active, every call is decided and no phone rings |
| `Calls.CallOrchestrator.Settle` | packages/core/src/calls.ts:415-419 | the promise is resolved at most once |
| `Calls.CallOrchestrator.Reap` | packages/core/src/calls.ts:227-234 | an answered call that never reports its end is released |
| `Calls.CallOrchestrator.Tick` | packages/core/src/calls.ts:169-175 | if no due timer is passed over, time alone breaks no invariant |
| `Calls.NoPhoneIsLeftRinging` | packages/core/src/calls.ts:129-260 | in every reachable state the phones still sounding are exactly the call's `ringing`, all of them targets of the current rung of an undecided call in the map |
| `Calls.EveryCallEnds` | packages/core/src/calls.ts:101-179 | an undecided call has its timer armed, and is decided once (repeat + 1) walks have had their time |
| `Calls.OutcomesAreTrue` | packages/core/src/calls.ts:199-261 | one result per call, and each outcome is a fact about what was sent and heard |
| `Wire.FedIsAPrefix` | packages/core/src/session.ts:106-121 | a socket accepts a prefix of what it is sent: once it refuses a frame it takes no more |
| `Wire.SoundAfterNew` | packages/core/src/server.ts:2767-2788 | a newly issued notification, accepted or refused, keeps every socket's frames in order of what is owed |
| `Wire.SoundAfterMore` | packages/core/src/server.ts:2408-2426 | on an open socket any further frames may follow, because it already carries all that is owed |
| `Wire.ReadingSettles` | packages/protocol/src/client.ts:603-607 | once the device reads a notification, nothing owed with a lower number is outstanding |
| `Delivery.ShownInOrder` | packages/core/src/server.ts:2117-2152 | the frames of a replay, notice first, never show a notification before a lower one that is owed |
| `Delivery.ShownCarries` | packages/core/src/server.ts:2124-2152 | shown or counted in the notice: every notification the replay is about, and nothing else |
| `Delivery.Hub.constructor` | packages/core/src/server.ts:1955-1974 | a device enrols at the head, owed nothing from before |
| `Delivery.Hub.Publish` | packages/core/src/server.ts:799-813 | numbered, remembered, oldest entries evicted, offered to every session that its role and its snooze permit, and marked as held if a snooze kept it from one; every session keeps its copy of the snooze or gets the record; all invariants kept |
| `Delivery.Hub.PushHistory` | packages/core/src/store.ts:908-915 | the cache stays in rising order, gains only the new number, and loses only the oldest; nothing else becomes owed |
| `Delivery.Hub.Coalesce` | packages/core/src/server.ts:803-809 | a notification held back by flood control uses up a number and changes nothing else |
| `Delivery.Hub.Deliver` | packages/core/src/server.ts:2767-2788 | in whatever order the sessions come: none is offered what its role or, for what is not critical, its snooze forbids, all are if nobody's snooze holds it, and the earliest number held back stays marked; every session keeps its copy of the snooze or gets the record |
| `Delivery.Hub.MarkHeld` | packages/core/src/server.ts:2803-2814 | the mark goes back to the earliest number held, never forward |
| `Delivery.Hub.Touch` | packages/core/src/server.ts:1777-1791 | a frame after a while refreshes every session's copy of the device record |
| `Delivery.Hub.Snooze` | packages/core/src/server.ts:2387-2406 | at most a day from now, 0 to lift it; the record changes and, of the sessions' copies, only this one's |
| `Delivery.Hub.Retry` | packages/core/src/server.ts:2842-2874 | re-sending an unacknowledged notification, under the same rules, keeps the invariants |
| `Delivery.Hub.Replay` | packages/core/src/server.ts:2117-2152 | the loop sends a prefix of frames that show the `limit` highest (none for a limit of 0 or less) of the numbers that are above the one asked for, permitted, in time and not filtered out by a snooze, in rising order, after a notice that stands for exactly the others, if there are others |
| `Delivery.Hub.ReplayShowsTheMostRecent` | packages/core/src/server.ts:2117-2152 | the same for any state, number asked for and snooze: how many are shown, which, in what order, and what the notice counts |
| `Delivery.Hub.Promote` | packages/core/src/server.ts:2049-2087 | a new socket starts from the device's cursor; of all that is owed exactly what the snooze on record passes over is missing from its frames, and from then on it is known as slipped |
| `Delivery.Hub.Sync` | packages/core/src/server.ts:2408-2426 | replaying from any number the client names keeps the invariants; the first sync of a session that is not snoozed starts early enough for everything held, which is among the frames iff it is critical or the snooze on record is over too, and the mark is gone either way |
| `Delivery.Hub.SyncCarries` | packages/core/src/server.ts:2408-2426 | a sync shows or counts exactly what is above the number it names, or from the mark on if it lifts one, and is not filtered out |
| `Delivery.Hub.Lift` | packages/core/src/server.ts:2416-2423 | what was held is no longer marked, and is known as recalled |
| `Delivery.Hub.HandleAck` | packages/core/src/server.ts:2214-2231 | for any whole number: the cursor becomes the number, clamped to what was issued, if that is higher; what it passes over without the device having received it is exactly what the device waives, which is nothing for a number it did receive; this session gets the record exactly if the cursor moved |
| `Delivery.Hub.CloseSession` | packages/core/src/server.ts:1738-1763 | a socket's end keeps the invariants; what it had taken can still be read |
| `Delivery.Hub.CursorStaysInRange` | packages/core/src/server.ts:2214-2231 | whatever number arrives, the cursor never goes back and never passes what the hub has issued |
| `Delivery.Hub.Read` | packages/protocol/src/client.ts:603-607 | the device takes the frames of a socket in order; afterwards the invariants hold with it as received or told of |
| `Delivery.Hub.NothingLostSilently` | packages/core/src/server.ts:2049-2087 | every permitted notification issued after enrolment with a number up to the cursor was received, counted in a notice, expired, left the cache, was waived by an acknowledgement beyond what was received, or is one a snooze answers for, for any interleaving of publishing, retries, sockets, syncs, snoozes, closes, acknowledgements and restarts |
| `Delivery.Hub.NothingLostWithoutASnooze` | packages/core/src/server.ts:2049-2087 | in a run in which the device was never snoozed and acknowledged above its cursor only what it had received, every permitted notification issued after enrolment with a number up to the cursor was received, counted in a notice, expired, or left the cache |
| `Delivery.Hub.LostByAcknowledgingPast` | packages/core/src/server.ts:2117-2123 | after an acknowledgement of any number, a replay from the cursor shows an eligible notification of the cache iff the cursor was below it, the number acknowledged is below it, and no snooze filters it: what a snooze kept from the device is lost to replays exactly once it is acknowledged past |
| `Delivery.Hub.OneOpenSocketSettlesAll` | packages/core/src/server.ts:2117-2152 | a device that has read all of one socket that is still open is owed nothing |
| `Delivery.Hub.OneOpenSocketTellsAll` | packages/core/src/server.ts:2117-2152 | never snoozed and honest in its acknowledgements, such a device has, or was told of, every eligible notification in the cache that was issued after it enrolled and has been there ever since |
| `Delivery.Hub.WriteDocument` | packages/core/src/store.ts:486-497 | counter and device record reach the disk together |
| `Delivery.Hub.Restart` | packages/core/src/store.ts:333-358 | from one document and any log in order with numbers up to the counter read back: every invariant holds again, and exactly the numbers above that counter are forgotten |
| `Delivery.OwedAfterCut` | packages/core/src/store.ts:333-358 | whatever the file still had, a restart makes nothing owed that was not owed before |
| `Delivery.SlippedAway` | packages/core/src/server.ts:2117-2123 | a run in which a notification published while the device was snoozed and away is passed over by a replay and then by the cursor, and no replay from there shows it, snoozed or not |
| `Delivery.SlippedAndShown` | packages/core/src/server.ts:2117-2123 | the same run without the acknowledgement: after the snooze, the next connection is shown it |
| `Delivery.LiftedTooEarly` | packages/core/src/server.ts:2408-2426 | a run in which a session that was not told of a second snooze lifts the mark, and the replay leaves out what it led back to |
| `Delivery.LiftedInVain` | packages/core/src/server.ts:2408-2426 | a run in which a sync after the snooze lifts the mark and its socket takes no frame of the replay: what was held is neither marked nor received, with the cursor past it |
| `Restart.Enrol` | packages/core/src/server.ts:1955-1974 | a device that enrols at any store makes a hub joined to it, owed nothing from before |
| `Restart.FirstStart` | packages/core/src/store.ts:333-358 | store and hub on an empty directory are joined |
| `Restart.Publish` | packages/core/src/server.ts:799-811 | hub and store give the same number and remember the same numbers; which sessions are offered it, and what becomes excused, is as the hub alone says |
| `Restart.Append` | packages/core/src/store.ts:461-482 | appending and compacting the log leave the file as the store says and the two agreed, whichever writes fail |
| `Restart.WriteDocument` | packages/core/src/store.ts:486-504 | the counter of the store and the record of the device are written in one document, or neither is |
| `Restart.Again` | packages/core/src/store.ts:333-358 | hub and store stop between any two writes and start again from the disk: numbering goes on after it, the cursor is the document's, the cache is the end of the file, what the device was told and what is excused are cut to the numbers read back, and every delivery invariant holds |
| `Client.Delay` | packages/protocol/src/client.ts:500-507 | the delay is between half the backoff and the backoff |
| `Client.NotifyClient.OpenSocket` | packages/protocol/src/client.ts:357-436 | from any state: exactly one live socket, under its own deadline, and no other timer pending |
| `Client.NotifyClient.Connect` | packages/protocol/src/client.ts:313-317 | the same after `connect`, which also lifts every latch and takes up the stored cursor |
| `Client.NotifyClient.Pair` | packages/protocol/src/client.ts:324-329 | the same after `pair` |
| `Client.NotifyClient.Disconnect` | packages/protocol/src/client.ts:331-355 | no socket, no timer, nothing can arrive any more |
| `Client.NotifyClient.ScheduleReconnect` | packages/protocol/src/client.ts:500-507 | one timer is set; after k failures in a row the backoff is min(2^(k-1), 30) seconds, and the retry waits at least half of it |
| `Client.WaitsInSeconds` | packages/protocol/src/client.ts:500-507 | that is 1, 2, 4, 8, 16, and from the sixth failure on 30 seconds |
| `Client.NotifyClient.RetryUnlessPointless` | packages/protocol/src/client.ts:425-435 | a retry is scheduled iff the client is not unpaired, not rejected, and reconnects by itself |
| `Client.NotifyClient.DeadlineFires` | packages/protocol/src/client.ts:448-493 | acts only on the socket it was armed for and only while that is not ready; a pairing attempt is never retried |
| `Client.NotifyClient.KeepaliveTick` | packages/protocol/src/client.ts:868-885 | a socket silent for two and a half keepalives is replaced at once, with the backoff reset |
| `Client.NotifyClient.Resume` | packages/protocol/src/client.ts:919-942 | asks for what was missed exactly on a ready socket heard from within two and a half keepalives; leaves alone a client that is closed, unpaired, revoked, connecting or pairing; otherwise reopens |
| `Client.NotifyClient.Hello` | packages/protocol/src/client.ts:530-559 | another hub than the one paired with gets nothing and the client closes; a client with nothing to say closes as unpaired; otherwise it signs |
| `Client.NotifyClient.Handshake` | packages/protocol/src/client.ts:718-760 | signs iff there is a code or credentials to sign with; otherwise unpaired, and the socket is closing |
| `Client.NotifyClient.SignedForPairing` | packages/protocol/src/client.ts:718-741 | a handshake resumed late, after its socket is gone, breaks no invariant; it leaves the status legible iff a retry was still to come |
| `Client.NotifyClient.Paired` | packages/protocol/src/client.ts:561-571 | the code is spent, the hub pinned, the device marked as freshly enrolled, and the connection undisturbed |
| `Client.NotifyClient.ReadyFrame` | packages/protocol/src/client.ts:573-600 | the keepalive takes over from the deadline and the backoff is forgotten; the cursor moves to the hub's newest number iff the device was freshly enrolled and that number is higher; the status stays legible iff nothing was refused before |
| `Client.NotifyClient.Ack` | packages/protocol/src/client.ts:779-787 | the cursor keeps the highest number acknowledged |
| `Client.NotifyClient.ErrorFrame` | packages/protocol/src/client.ts:696-706 | a refused pair or auth frame latches, and drops the code |
| `Client.NotifyClient.RevokedFrame` | packages/protocol/src/client.ts:673-686 | the status says so, which is what keeps `OnClose` from retrying |
| `Client.NotifyClient.OtherFrame` | packages/protocol/src/client.ts:603-671 | every other frame is a sign of life and changes nothing else |
| `Client.NotifyClient.OnClose` | packages/protocol/src/client.ts:412-435 | a stale socket's close changes nothing; the held one's leaves a retry due iff it is not pointless, and a status that tells why not stays so |
| `Client.NotifyClient.OnError` | packages/protocol/src/client.ts:409-411 | an error alone changes the status and strands nobody |
| `Client.NotifyClient.ReconnectFires` | packages/protocol/src/client.ts:500-507 | the backoff timer opens one new socket |
| `Client.NeverSilentlyStuck` | packages/protocol/src/client.ts:331-436 | in every reachable state no socket or timer is alive behind the client's back, a held socket is watched by deadline or keepalive, and without one a retry is due unless the client is closed, rejected, or was told it is unpaired, revoked or too late to pair |
| `Client.RetriesBackOff` | packages/protocol/src/client.ts:500-507 | in every reachable state a retry that is due after k lost connections in a row, with no `ready` or fresh start between them, waits between half of min(2^(k-1), 30) seconds and all of it |
| `Client.StoppedSaysWhy` | packages/protocol/src/client.ts:412-435 | a client that will not try again, though nobody closed it, shows `unpaired`, `revoked` or `error`, and the first two only if it was told so, as long as its status is legible, which every event but two keeps |
| `Client.LateSignature` | packages/protocol/src/client.ts:718-741 | a run after which the status is not legible: it hides that the client was told it is not paired |
| `Client.CursorMovedLater` | packages/protocol/src/client.ts:573-600 | a run in which a connection that did not enrol the device moves its cursor past whatever came in between |
| `NoteLog.LastOfKept` | packages/core/src/store.ts:508-522 | the end of a log with some entries lost equals the end of the full one iff none of the lost is in it |
| `NoteLog.EndOfTheLog` | packages/core/src/store.ts:508-546 | by number, the end of the log is the end of what was written iff nothing of that was lost; with marks, they are equal iff nothing of it was lost or marked only in memory |
| `NoteLog.MarkingUp` | packages/core/src/store.ts:918-932 | marking the cache again adds exactly the newly marked numbers to those whose mark is not on the disk |
| `NoteLog.TailHoldsTheHighest` | packages/core/src/store.ts:351-358 | in an ordered log the retained tail shows the highest number of the whole file |
| `StoreLog.Store.constructor` | packages/core/src/store.ts:333-358 | from any recoverable disk: the counter is the higher of the document's and the highest in the tail, no number on the disk is above it, and the cache is the end of the file |
| `StoreLog.Store.NextSeq` | packages/core/src/store.ts:644-648 | the next number, above every one issued or on the disk |
| `StoreLog.Store.PushHistory` | packages/core/src/store.ts:908-915 | log and cache both gain the entry, and the cache stays the end of the log |
| `StoreLog.Store.Publish` | packages/core/src/server.ts:799-811 | the caller's side: issue a number and push it in one go, so numbers reach the log in rising order |
| `StoreLog.Store.Drain` | packages/core/src/store.ts:508-522 | the whole queue is in the file, or exactly those numbers are lost |
| `StoreLog.Store.Compact` | packages/core/src/store.ts:532-546 | a rewrite makes file and cache equal, a failed one changes neither |
| `StoreLog.Store.AppendAndCompact` | packages/core/src/store.ts:461-482 | exactly what is in the file and what is lost after the appends, and that it is compacted once it passes twice the window |
| `StoreLog.Store.Flush` | packages/core/src/store.ts:461-505 | the queue is empty, the file holds at most twice the window unless its compaction failed, and the store is clean only once its counter is on the disk |
| `StoreLog.Store.TouchHistory` | packages/core/src/store.ts:933-947 | either the file becomes the cache and the queue is dropped, or file and queue are as before; no line is written twice |
| `StoreLog.Store.Resolve` | packages/core/src/server.ts:398-411 | marks exactly the chosen cached entries; a rewrite leaves nothing lost and no mark missing, a failed one adds exactly the newly marked numbers to those whose mark is not on the disk |
| `StoreLog.Store.LogRises` | packages/core/src/store.ts:461-545 | whichever writes failed, file and queue together rise strictly in number, with no duplicates |
| `StoreLog.Store.CacheIsTheEndOfTheLog` | packages/core/src/store.ts:908-915 | in every state: by number the cache is the end of the log iff no failed append lost a line it still has, and the two are equal iff, besides, no mark on it is missing on the disk |
| `StoreLog.Store.SinceOrEvicted` | packages/core/src/store.ts:949-951 | a number pushed since the store was opened, whatever was rewritten in between, is returned for a lower cursor iff fewer than `limit` were pushed after it |
| `StoreLog.CrashAndRestart` | packages/core/src/store.ts:340-358 | a crash between any two writes, also inside one flush, restarts above every number on the disk |
| `StoreLog.LineNotWritten` | packages/core/src/store.ts:508-522 | a run after which the cache holds a line the log has lost |
| `StoreLog.MarkNotWritten` | packages/core/src/store.ts:933-947 | a run after which no line is lost and the cache still differs from the log, by a mark whose rewrite failed |
| `TokenBucket.WindowIsASlice` | packages/core/src/guard.ts:103-114 | the admissions of a time window are neighbours in the log |
| `TokenBucket.ForgettingIsSafe` | packages/core/src/guard.ts:226-233 | dropping a full bucket and making a new one later grants nothing extra |
| `TokenBucket.WindowBound` | packages/core/src/guard.ts:80-114 | between t1 and t2 an address is let in at most burst + perSecond * (t2 - t1) / 1000 times |
| `TokenBucket.ShortOfATokenMeans` | packages/core/src/guard.ts:100-103 | the bucket is short of a token iff, counting from some earlier admission, one more would exceed the burst plus the rate times the time since: nobody slower than that is refused |
| `Bans.DurationGrows` | packages/core/src/guard.ts:152-158 | a later ban is never shorter than an earlier one |
| `Bans.DurationIsPower` | packages/core/src/guard.ts:152-158 | after n bans the next one lasts 2^n times the base, or the maximum if that is shorter |
| `Bans.FailureIsTallied` | packages/core/src/guard.ts:144-170 | the level on record is the number of bans given, and the failures on record are the run of failures since the last ban or success |
| `Bans.FailureExtends` | packages/core/src/guard.ts:144-169 | a failure moves an address's `until` back iff it earns a new ban that ends before the running one, and never does for a ban that reaches no further than its level earns |
| `Bans.RestoredUnderALongerMaximum` | packages/core/src/guard.ts:152-158 | a ban restored from a time of longer bans that the next failure cuts short |
| `Bans.PutShortensNothing` | packages/core/src/store.ts:795-816 | storing a record that is no longer than what its address was given, with whatever it evicts, drops and shortens no running ban |
| `Bans.NewBanStands` | packages/core/src/store.ts:795-816 | storing a new ban, with whatever it evicts, leaves every other running ban standing, and this one as its address's |
| `Bans.KeptUnlessFull` | packages/core/src/store.ts:795-816 | a record is kept iff the address is known, there is room, or an expired record can make way |
| `Bans.BanStore.PutBan` | packages/core/src/store.ts:795-816 | evicts only an expired record, and of those the one that failed longest ago |
| `Bans.BanStore.Oldest` | packages/core/src/store.ts:805-811 | one pass finds the stalest expired record, or says there is none |
| `Guard.Taken` | packages/core/src/guard.ts:110-113 | a new session adds one to its own address and nothing to any other |
| `Guard.Freed` | packages/core/src/guard.ts:130-136 | a session that ends takes one from its own address and nothing from any other |
| `Guard.Guard.constructor` | packages/core/src/guard.ts:38-45 | any store will do; the bans it already holds count as given |
| `Guard.Guard.Admit` | packages/core/src/guard.ts:81-114 | the verdict in the order of the checks: denied, banned, busy, too many connections, rate limited exactly if it comes too fast by when it was let in before, else let in; never while the longest ban it was given runs |
| `Guard.Guard.AdmitByCaps` | packages/core/src/guard.ts:95-113 | behind the bans: both caps, then the bucket, and what is taken when nothing speaks against it |
| `Guard.Guard.State` | packages/core/src/guard.ts:208-224 | topping up an address's bucket keeps every invariant |
| `Guard.Guard.Release` | packages/core/src/guard.ts:130-136 | both counters go down by exactly what the session held; neither `Math.max` bites |
| `Guard.Guard.Promote` | packages/core/src/guard.ts:117-119 | the session leaves the unauthenticated, and no clamp bites |
| `Guard.Guard.Fail` | packages/core/src/guard.ts:144-170 | bans iff this failure makes a run of `maxFailures`, each within the window of the one before, since the last ban or success; after n bans the next lasts min(base * 2^n, max); no running ban of any other address changes, its own gets shorter iff the new one ends earlier, which never happens over a store within the policy; a reported ban is in force unless the store could not keep it |
| `Guard.Guard.Succeed` | packages/core/src/guard.ts:178-200 | a running ban keeps running, the number of bans given is kept, the run of failures is over, and a record that counts no ban goes |
| `Guard.Guard.Sweep` | packages/core/src/guard.ts:226-239 | drops exactly the full buckets nobody used for ten minutes and the expired bans without a failure for eight windows |
| `Guard.Guard.RunningBansStand` | packages/core/src/guard.ts:144-200 | over any run of failures, successes, sweeps and evictions the longest ban an address was given, restored ones included, is the one on record until its end; only `Fail` can replace it by a shorter one, where it says so |
| `Guard.Guard.RateBound` | packages/core/src/guard.ts:208-233 | the admission bound over any run, sweeps included |
| `Guard.BannedInWordOnly` | packages/core/src/guard.ts:151-160 | a full store of running bans that loses a ban that was reported |
| `Sessions.Hub.HandleUpgrade` | packages/core/src/server.ts:1323-1358 | a slot is held iff a session exists, also when the upgrade is abandoned |
| `Sessions.Hub.OpenSession` | packages/core/src/server.ts:1686-1697 | a new session under a fresh id, booked as not yet promoted |
| `Sessions.Hub.Promote` | packages/core/src/server.ts:2049-2057 | the session is ready and counted as authenticated, once |
| `Sessions.Hub.CloseSession` | packages/core/src/server.ts:1738-1763 | a slot is given back once, however many close events a socket has |
| `Sessions.Hub.HangUp` | packages/core/src/session.ts:141-149 | a hub-initiated close keeps the slot until the close event |
| `Sessions.Hub.Stop` | packages/core/src/server.ts:775-780 | a stopped hub holds no slot of any address |
| `Sessions.Hub.CountersAreExact` | packages/core/src/guard.ts:110-136 | `unauthenticated` is the number of live sessions not yet promoted, and each address's `concurrent` the number of its live sessions |
| `Glob.Match` | packages/protocol/src/rbac.ts:34-62 | true exactly when the value is in the language of the pattern, within (length of value + 1) times (length of pattern + 1) turns |
| `Glob.OneTurn` | packages/protocol/src/rbac.ts:43-59 | one turn changes nothing about what is still possible, gives up only when nothing is, and moves a lexicographic measure |
| `Glob.LaterStarCovers` | packages/protocol/src/rbac.ts:45-55 | why only the last star needs remembering: once a later star is reached, a longer run for the earlier one can never help |
| `Glob.NewStar` | packages/protocol/src/rbac.ts:45-47 | forgetting the previous star changes nothing about what is still possible |
| `Glob.Backtrack` | packages/protocol/src/rbac.ts:52-55 | letting the last star swallow one more changes nothing about what is still possible |
| `Glob.ValueExhausted` | packages/protocol/src/rbac.ts:60-61 | at the end of the value only stars may be left of the pattern |
| `Glob.TurnsAreProduct` | packages/protocol/src/rbac.ts:26-33 | the bound on turns is a product of the two lengths |
| `Channels.ChannelMatches` | packages/protocol/src/rbac.ts:9-24 | some positive pattern matches and no negated one does, whatever `toLowerCase` makes of pattern and channel; a malformed list matches nothing |
| `Channels.EntriesRead` | packages/protocol/src/rbac.ts:9-24 | a text that starts with `!` excludes what the rest of it matches, any other admits its own matches |
| `Channels.OrderIsIrrelevant` | packages/protocol/src/rbac.ts:4-8 | the order of the patterns does not matter, nor does repetition |
| `Channels.ExclusionTakesAway` | packages/protocol/src/rbac.ts:4-8 | adding an exclusion takes away exactly the channels it names |
| `Roles.NothingEscalates` | packages/protocol/src/rbac.ts:160-166 | the list is empty iff the actor is an admin or has every capability wanted but `notify.receive`, `notify.ack` and `call.receive`, which are free to give |
| `Roles.AdminHasAll` | packages/protocol/src/rbac.ts:65-68 | `admin` is a superset, every other capability is checked literally |
| `Roles.GrantedHas` | packages/protocol/src/rbac.ts:214-231 | a sanitised role carries exactly the known capabilities its author may grant |
| `Roles.SanitizerRefuses` | packages/protocol/src/rbac.ts:198-246 | a role is refused iff its name, trimmed and cut, is none or one of three reserved ones, or no channel is a text |
| `Roles.SanitizedTexts` | packages/protocol/src/rbac.ts:198-246 | name, channels and description are beginnings of what was given, of at most 64, 100 and 200 |
| `Roles.SanitizedNumbers` | packages/protocol/src/rbac.ts:198-246 | places are rounded down and not negative, hours are of the day, the severity is `info` if none is known |
| `Roles.SanitizedGrants` | packages/protocol/src/rbac.ts:214-231 | of the capabilities exactly those are kept that the author may grant: the three free ones, its own, or any for an admin |
| `Roles.SanitizedStays` | packages/protocol/src/rbac.ts:198-246 | sanitising a sanitised role once more, granting anything, changes nothing but white space at the end of its name: it is unchanged iff the name, once trimmed and cut to 64, ends in none |
| `Roles.CutAgain` | packages/protocol/src/rbac.ts:201-201 | trimming and cutting a name twice takes away exactly the white space the first cut left at its end |
| `Roles.NameCutInSpace` | packages/protocol/src/rbac.ts:201-201 | a name cut in the middle of white space: the second pass gives another name than the first |
| `Roles.SanitizedStaysWithin` | packages/protocol/src/rbac.ts:198-246 | a role written over the wire stays within what its author may hand on |
| `Access.Hub.constructor` | packages/core/src/server.ts:2430-2471 | any hub state is a starting point; the ceiling is what the party holds then |
| `Access.Hub.SetDeviceRole` | packages/core/src/server.ts:1103-1115 | record and live sessions change together, so the role checked is the role stored |
| `Access.Hub.UpsertRole` | packages/core/src/server.ts:1121-1137 | the same for every session whose device has the role |
| `Access.Hub.DeleteRole` | packages/core/src/server.ts:1161-1166 | refused iff an active device has the role, so no live session outlives its role |
| `Access.Hub.FrameSetRole` | packages/core/src/server.ts:2484-2488 | forbidden without `devices.manage`; done, in the record and on the live sessions, iff besides the role exists and carries nothing privileged the sender cannot use; otherwise nothing changes |
| `Access.Hub.FramePairCreate` | packages/core/src/server.ts:2489-2491 | the code is minted iff the sender has `devices.manage` and may grant the role, which exists; otherwise nothing changes |
| `Access.Hub.FrameRolesUpsert` | packages/core/src/server.ts:2509-2527 | writes only what the sender may grant, in the record and on the live sessions of the role; the role looked up carries no more than the sender has, and is the one written iff its name does not end in white space |
| `Access.Hub.FrameRolesDelete` | packages/core/src/server.ts:2528-2529 | forbidden without `roles.manage`, refused iff an active device has the role, and otherwise exactly that role is gone; containment survives its deletion and re-creation |
| `Access.Hub.FrameRevoke` | packages/core/src/server.ts:2478-2479 | no live session of a revoked device is left |
| `Access.Hub.Redeem` | packages/core/src/server.ts:1903-1974 | a device enrols iff the code has a use left and has not expired, its list admits the address, its role exists and has room, the signature is good and the key is new; it gets the role as it is now, within the ceiling if the party minted the code; a refusal gives the use back; the role's `maxDevices` is never exceeded |
| `Access.Hub.Authenticate` | packages/core/src/server.ts:1995-2046 | a returning device's session gets the stored role, and nothing if it is revoked or roleless |
| `Access.Hub.PrivilegeNeverGrows` | packages/protocol/src/rbac.ts:160-179 | over any run of the frames, no device of the party or enrolled by it holds, stored or live, any of `notify.act`, `notify.send`, `call.place`, `devices.manage`, `roles.manage`, `audit.read` and `admin` that none of them had at the start |
| `Access.Hub.WhoMayAct` | packages/core/src/server.ts:2430-2529 | so every frame that needs a capability the party did not have at the start is forbidden to it, for ever |
| `Words.RotRIsCircular` | packages/protocol/src/hash.ts:75-77 | shift-and-or moves every bit n places down and the lowest n to the top |
| `Words.BitOfBitwise` | packages/protocol/src/hash.ts:51-55 | a bitwise operator acts on each bit |
| `Sha256Spec.ZeroBytesAreFewest` | packages/protocol/src/hash.ts:27-31 | the padding of section 5.1.1 of FIPS 180-4 is the shortest |
| `Sha256Spec.ChChooses` | packages/protocol/src/hash.ts:51-53 | Ch is, bit by bit, a choice |
| `Sha256Spec.MajIsTheMajority` | packages/protocol/src/hash.ts:54-55 | Maj is, bit by bit, the majority |
| `Sha256Constants.InitialHash` | packages/protocol/src/hash.ts:22-24 | the initial hash value is the fractions of the square roots of the primes up to 19 |
| `Sha256Constants.FirstConstants` | packages/protocol/src/hash.ts:11-12 | the round constants are the fractions of the cube roots of the primes from 2, |
| `Sha256Constants.SecondConstants` | packages/protocol/src/hash.ts:13-14 | from 59, |
| `Sha256Constants.ThirdConstants` | packages/protocol/src/hash.ts:15-16 | from 137, |
| `Sha256Constants.FourthConstants` | packages/protocol/src/hash.ts:17-18 | and from 227 to 311 |
| `Sha256.PaddedLengthIsLeast` | packages/protocol/src/hash.ts:31-31 | the padded length is the least multiple of 64 with room for length + 9 bytes |
| `Sha256.PaddedLengthOverflows` | packages/protocol/src/hash.ts:31-32 | beyond 2^31 - 73 bytes 32-bit arithmetic gives an array too small for the data |
| `Sha256.Padded` | packages/protocol/src/hash.ts:31-35 | the typed array is the padded message of section 5.1.1, or the call throws |
| `Sha256.PlusReduces` | packages/protocol/src/hash.ts:45-53 | a summand may be signed and reduced late without changing the word |
| `Sha256.FillSchedule` | packages/protocol/src/hash.ts:41-46 | the in-place loops leave the message schedule of section 6.2.2 |
| `Sha256.OneRound` | packages/protocol/src/hash.ts:50-61 | one turn of the rolling variables is one round of section 6.2.2 |
| `Sha256.AddBlock` | packages/protocol/src/hash.ts:48-67 | working a block into `h` is the compression of section 6.2.2 |
| `Sha256.Sha256Sync` | packages/protocol/src/hash.ts:21-73 | the digest of FIPS 180-4 for every input up to 2^31 - 73 bytes, an exception for every other |
| `Versions.CompareVersions` | packages/protocol/src/updates.ts:73-129 | the two loops with early returns compute the order `Compare` |
| `Versions.Reflexive` | packages/protocol/src/updates.ts:73-129 | a version equals itself |
| `Versions.Antisymmetric` | packages/protocol/src/updates.ts:73-129 | swapping the arguments flips the sign |
| `Versions.Transitive` | packages/protocol/src/updates.ts:73-129 | transitive, strictly so unless both steps are ties, although digit runs compare by value and everything else by code unit |
| `Versions.FirstDecides` | packages/protocol/src/updates.ts:116-126 | against text all digit runs compare alike, which is what keeps the mixed order transitive |
| `Versions.NewerIsAnOrder` | packages/protocol/src/updates.ts:131-133 | nothing is newer than itself and "newer" has no cycles |
| `Versions.LargerNumberIsNewer` | packages/protocol/src/updates.ts:73-91 | of two versions, as texts, that agree on their numbers before some position, missing ones counting as 0, the one with the larger number there is newer, whatever white space, `v` and suffix are around them (`0.10.0` over `0.9.0`) |
| `Versions.ReleaseAbovePreview` | packages/protocol/src/updates.ts:95-103 | a release ranks above each of its previews, whatever white space is around either |
| `Versions.NumbersInSuffixesByValue` | packages/protocol/src/updates.ts:105-128 | digit runs in a suffix are ordered by value, however many zeros they start with and whatever follows them |
| `Versions.NumbersInPreviewsByValue` | packages/protocol/src/updates.ts:73-129 | and so are whole versions whose numbers tie (`v1.2-rc.9` and `1.2.0-rc.10`), with white space and a `v` in front or without |
| `Versions.LongerSuffixIsNewer` | packages/protocol/src/updates.ts:117-121 | a suffix comes before every longer one that goes on after it (`main` before `main.1`) |
| `Versions.TextInSuffixesByUnit` | packages/protocol/src/updates.ts:122-127 | where suffixes first differ in text, the code units decide (`alpha` before `beta`) |
| `Versions.ChunksJoin` | packages/protocol/src/updates.ts:112-114 | the chunks of a suffix are the suffix |
| `Versions.ChunksAlternate` | packages/protocol/src/updates.ts:112-114 | and they are maximal runs of digits and of anything else |
| `Canonical.ReadUndoes` | packages/protocol/src/canonical.ts:7-14 | a reader gets the parts back from every transcript |
| `Canonical.Injective` | packages/protocol/src/canonical.ts:7-14 | equal transcripts have the same number of parts and the same parts, whatever characters they contain |
| `Canonical.WrittenOut` | packages/protocol/src/canonical.ts:7-14 | the transcript of `ab` and `c`, as it is written |
| `PairingCode.Payload` | packages/protocol/src/code.ts:19-29 | the shift loop writes the top 50 bits in base 32 |
| `PairingCode.EncodePairingCode` | packages/protocol/src/code.ts:19-35 | payload, SHA-256 check characters and grouping; an error below seven bytes |
| `PairingCode.GroupedAt` | packages/protocol/src/code.ts:19-35 | every fifth character is a dash, none at the end, and the others are the code |
| `PairingCode.AlphabetInOrder` | packages/protocol/src/code.ts:3-7 | the alphabet is the digits and letters in their order, without I, L, O and U |
| `PairingCode.CheckChars` | packages/protocol/src/code.ts:32-35 | the two check characters come from the SHA-256 digest of section 6.2.2 of FIPS 180-4 |
| `PairingCode.PrefixReads` | packages/protocol/src/code.ts:32-33 | what is hashed before the payload is `notifyjs/code/v1` and a bar |
| `PairingCode.IsPairingCodeValid` | packages/protocol/src/code.ts:79-85 | twelve code characters after normalising, the last two the check of the first ten |
| `PairingCode.RoundTrip` | packages/protocol/src/code.ts:19-85 | every code made is valid, formatting leaves it unchanged, and its payload reads back as the top 50 bits |
| `PairingCode.SameCodeSameBits` | packages/protocol/src/code.ts:19-30 | two inputs share a code iff they agree on the top 50 bits |
| `PairingCode.CodesMadeAreValid` | packages/protocol/src/code.ts:19-85 | with the SHA-256 check characters: every code made is valid and stable under formatting, and two are equal iff the top 50 bits are |
| `PairingCode.NormalizeStripsGrouping` | packages/protocol/src/code.ts:69-76 | normalising a code takes away its grouping and nothing else |
| `PairingCode.NormalizeIsIdempotent` | packages/protocol/src/code.ts:69-76 | normalising twice is normalising once, whatever was typed |
| `PairingCode.ReadsCharacters` | packages/protocol/src/code.ts:69-76 | what is typed is read character by character: O as 0, I and L as 1, U as V, small letters as capitals, and everything that is no letter and no digit is skipped |
| `PairingCode.FormatIsIdempotent` | packages/protocol/src/code.ts:57-63 | so is formatting |
| `PairingCode.FormatKeepsTwelve` | packages/protocol/src/code.ts:57-63 | formatting keeps the first twelve letters and digits, as they are |
| `WebPush.TruncateJson` | packages/core/src/webpush.ts:226-236 | the longest prefix whose JSON leaves room for the ellipsis, or the ellipsis alone |
| `WebPush.JsonBytesCounts` | packages/core/src/webpush.ts:221-224 | what is counted for a text is the length in UTF-8 of what `JSON.stringify` writes for it |
| `WebPush.FitBody` | packages/core/src/webpush.ts:247-258 | a body that does not fit is cut to the longest beginning that does, or to its ellipsis where none does, which lengthens it iff it takes one or two bytes |
| `WebPush.FitTitle` | packages/core/src/webpush.ts:247-258 | the same for the title |
| `WebPush.EncodePayload` | packages/core/src/webpush.ts:247-258 | fits iff it fitted, or fits with the body at an ellipsis, or with both at one; what fits is unchanged; each text is cut exactly if the payload does not fit by then, and the title only if cutting the body was not enough |
| `WebPush.LengthenedInVain` | packages/core/src/webpush.ts:247-258 | a payload that cannot fit and is longer for having its title cut |

## Left out

- Sockets, HTTP, TLS, static files, QR codes, the updater's downloads and the signature, key-agreement and cipher primitives: I/O and foreign code.
- The web, desktop and mobile applications, the CLI, speech, `flood.ts`, `watchdog.ts`, `ingest.ts` and the adapters.
- Option validation, message sanitisers, severities and targeting in `canDeliver`, and `buildLadder`: each is settled by reading one branch. In `Delivery` the outcome of `canDeliver` is fixed with the notification.
- Delivery.Hub.constructor: the enrolment is on the disk at once; the code writes it with the next flush, and a crash before that forgets the device.
- Delivery.Hub.HandleAck: acknowledged numbers are whole; the code also takes a fraction.
- Delivery.Hub.Restart: frames of a dead socket that the device still reads are read before the restart, not after it.
- StoreLog.Store.PushHistory: for numbers pushed in the order they were issued, as `Publish` shows its callers do.
- The capability check and the action in an acknowledgement, and the retry budget (`ackWaiters`): they decide whether a frame is handled, not what it does to the cursor.
- Emitted events, audit lines, metrics and `retryAfter` values.
- The order in which JavaScript iterates maps and sets; the models take any order.
- Hub privileges across a restart, which merges default roles back in, and ingest tokens: `PrivilegeNeverGrows` is about one life of the hub.
- Torn log lines, so the filter on safe integers never bites, and the one-time move of inline collections.
- Two hubs on one store directory, clocks that run backwards, and IEEE rounding of tokens, numbers and durations.
- The client's watchdog, its pending admin calls, `forgetCredentials`, and a `createSocket` that throws; `connect` is atomic.
- Sockets of `Delivery` and sessions of `Access` are values in a map rather than objects; what that misses is aliasing between two names of one session, which the hub does not have.
