# Badminton flash-claim admission engine, modelled in Dafny

This project models the core of a badminton court flash-sale backend, which sells
one-hour court slots at a fixed "flash" moment each day. The core is the path a claim
takes and the jobs that prepare and clean up after it:

- **Configuration.** An administrator configures flash sessions and the court
  layout. The settings are validated and merged, and the court table is reconciled
  with them (`AdminConfig`).
- **Slot generation.** Each day every session is cut into time slots per court
  (`TimeSlots`). The generation is guarded by a daily done flag and a lock
  (`AdminWarmup.GenerateSlot`).
- **Warmup.** Before the flash moment the cache server is warmed for every slot: a
  slot-to-session binding, a one-permit semaphore, a dedup set holding a placeholder
  and a warm flag. Each session also gets a closed gate, its gate time and a
  session done flag (`AdminWarmup`).
- **Scheduled jobs.** A warmup job handles sessions whose flash time is near. A gate
  job opens the gates of warmed sessions once their flash time has come. A daily job
  generates the slots. A reaper cancels unpaid reservations (`Schedulers`).
- **The claim** (`ReserveService.Reserve`). It checks, in order:
  1. the slot's session binding;
  2. a per-user rate limit;
  3. the gate;
  4. the dedup set;
  5. a permit.

  It then stores a pending record, publishes a message and compensates when the
  publish fails.
- **Publish outcomes.** The broker's confirm and return callbacks and the dead-letter
  consumer compensate by trace id: they read and delete the pending record, remove
  the user from the dedup set and return the permit (`PublishCallback`,
  `DlqConsumer`). The queue consumer writes the reservation row
  (`ReserveConsumer`).
- **After the claim.** The reservation can then be paid (a mock WeChat payment),
  refunded or cancelled (`PayService`, `ReserveService.Cancel`).
- **Database mode.** An alternative, database-only reservation mode is also
  modelled (`ReserveDb`).
- **Request checks.** Every request passes the bearer-token check and the role check
  (`TokenValidator`).
- **Cache keys.** Cache key layout and injectivity are in `RedisKeys`.

The cache server is a class `CacheStore.Cache` whose methods mirror the Redisson
primitives the services call. The relational store is a class `Tables.Db` with one
`seq` per table; a row's id is its position plus one. Each state-changing service
operation is a method. It is proved equal to a pure specification function of the
old state, and the properties are lemmas about those functions.

## Model

Source paths are relative to the repository root.

| member | source | states |
|---|---|---|
| Common.PlusMinutes | src/main/java/shuhuai/badmintonflashbackend/scheduler/WarmupScheduler.java:39-40 | LocalTime.plusMinutes is addition modulo one day, for either sign, always landing in the day |
| Common.MinusMinutes | src/main/java/shuhuai/badmintonflashbackend/service/impl/AdminServiceImpl.java:541-559 | LocalTime.minusMinutes lands in the day on the time n minutes earlier, modulo one day |
| Common.TruncateToMinute | src/main/java/shuhuai/badmintonflashbackend/utils/DateTimes.java:14-16 | the current minute is the clock with seconds dropped: never after the clock and less than a minute before it |
| Decimal.ParseInt | src/main/java/shuhuai/badmintonflashbackend/mq/ReservePublishCallbackHandler.java:59-66 | a value Integer.parseInt accepts lies in the Integer range and is the signed value of the decimal digits (any script's Nd digits) after an optional '+' or '-'; an unsigned all-digit text in range is always accepted |
| Decimal.DecimalDigit | src/main/java/shuhuai/badmintonflashbackend/mq/ReservePublishCallbackHandler.java:59-66 | Character.digit(c, 10) gives a value 0 to 9, nothing below '0', and the usual value on ASCII digits |
| Decimal.DecimalValueOfAscii | src/main/java/shuhuai/badmintonflashbackend/mq/ReservePublishCallbackHandler.java:59-66 | on ASCII digits the parsed value is the ordinary decimal value |
| Decimal.ParseIntOtherScripts | src/main/java/shuhuai/badmintonflashbackend/mq/ReservePublishCallbackHandler.java:59-66 | Arabic-Indic, fullwidth and Devanagari digits parse to their values |
| Decimal.IntToStringNoColon | src/main/java/shuhuai/badmintonflashbackend/service/impl/ReserveServiceImpl.java:95-96 | a printed integer never contains ':', so the pending record's separator is unambiguous |
| Decimal.ParseIntToString | src/main/java/shuhuai/badmintonflashbackend/mq/ReservePublishCallbackHandler.java:59-66 | parsing a printed Integer gives it back |
| Decimal.IntToStringInjective | src/main/java/shuhuai/badmintonflashbackend/constant/RedisKeys.java:18-20 | distinct ids print differently, the basis of every id-keyed cache key |
| Tables.SelectOne | src/main/java/shuhuai/badmintonflashbackend/mq/consumer/ReserveConsumer.java:30-35 | selectOne gives no row, the single matching row, or an error when more than one row matches |
| Tables.CloseOrders | src/main/java/shuhuai/badmintonflashbackend/service/impl/ReserveServiceImpl.java:184-192 | the conditional update turns exactly the reservation's PAYING orders into CLOSED |
| Tables.CloseOrdersEffect | src/main/java/shuhuai/badmintonflashbackend/service/impl/ReserveServiceImpl.java:184-192 | after closing, no order of that reservation is PAYING and other reservations' orders are untouched |
| Tables.SetStatus | src/main/java/shuhuai/badmintonflashbackend/service/impl/ReserveServiceImpl.java:151-155 | a status update changes only that row's status |
| Tables.SetStatusKeepsUnique | src/main/java/shuhuai/badmintonflashbackend/service/impl/ReserveServiceImpl.java:151-155 | cancelling, or moving between slot-holding statuses, keeps slot-holding reservations unique per slot |
| Tables.ActiveCourtIds | src/main/java/shuhuai/badmintonflashbackend/service/impl/AdminServiceImpl.java:589-592 | every id listed names an active row |
| Tables.ActiveCourtIdsComplete | src/main/java/shuhuai/badmintonflashbackend/service/impl/AdminServiceImpl.java:589-592 | every active row is listed, and the ids come in increasing order |
| Tables.ActiveCourtIdsOfFlags | src/main/java/shuhuai/badmintonflashbackend/service/impl/AdminServiceImpl.java:589-592 | tables with the same active flags have the same active ids, whatever the names |
| Tables.ActiveCourtIdsUnique | src/main/java/shuhuai/badmintonflashbackend/service/impl/AdminServiceImpl.java:520-522 | the active ids are the only increasing enumeration of the active courts |
| Tables.ActiveCourtIdsAppend | src/main/java/shuhuai/badmintonflashbackend/service/impl/AdminServiceImpl.java:564-570 | an appended active court takes the next id and comes last among the active ones |
| Tables.ActiveCourtIdsRename | src/main/java/shuhuai/badmintonflashbackend/service/impl/AdminServiceImpl.java:577-586 | renaming a court does not change the set of active courts |
| Tables.ActiveCourtIdsDelete | src/main/java/shuhuai/badmintonflashbackend/service/impl/AdminServiceImpl.java:571-576 | deleting the active court at one position removes exactly that id |
| Tables.SessionById | src/main/java/shuhuai/badmintonflashbackend/service/impl/TimeSlotServiceImpl.java:54-57 | selectById finds the session exactly when the id names a row |
| CacheStore.DedupAdd | src/main/java/shuhuai/badmintonflashbackend/service/impl/ReserveServiceImpl.java:80-84 | adding to a set creates it when absent and keeps the cache free of empty sets |
| CacheStore.DedupAddExisting | src/main/java/shuhuai/badmintonflashbackend/service/impl/ReserveServiceImpl.java:80-84 | adding a member already present leaves the cache unchanged |
| CacheStore.DedupRemove | src/main/java/shuhuai/badmintonflashbackend/service/impl/ReserveServiceImpl.java:90 | removing a member deletes the set when it becomes empty |
| CacheStore.Acquire | src/main/java/shuhuai/badmintonflashbackend/service/impl/ReserveServiceImpl.java:87-92 | tryAcquire takes one permit from an existing semaphore that has one |
| CacheStore.Release | src/main/java/shuhuai/badmintonflashbackend/mq/ReservePublishCallbackHandler.java:69-70 | release adds one permit, creating the semaphore when it is absent |
| CacheStore.ReleaseUndoesAcquire | src/main/java/shuhuai/badmintonflashbackend/mq/ReservePublishCallbackHandler.java:69-70 | releasing the permit just acquired restores the semaphore |
| CacheStore.ReleaseIfExists | src/main/java/shuhuai/badmintonflashbackend/service/impl/ReserveServiceImpl.java:200-203 | the guarded release never creates a semaphore |
| CacheStore.ReleaseReserveResourceSpec | src/main/java/shuhuai/badmintonflashbackend/service/impl/ReserveServiceImpl.java:194-204 | the user leaves the slot's dedup set and an existing semaphore gains one permit; nothing else changes |
| CacheStore.Cache.AddMember | src/main/java/shuhuai/badmintonflashbackend/service/impl/ReserveServiceImpl.java:80-84 | RSet.add reports whether the user was new, and the cache becomes DedupAdd of the old one |
| CacheStore.Cache.RemoveMember | src/main/java/shuhuai/badmintonflashbackend/service/impl/ReserveServiceImpl.java:90 | RSet.remove, as DedupRemove |
| CacheStore.Cache.TryAcquire | src/main/java/shuhuai/badmintonflashbackend/service/impl/ReserveServiceImpl.java:87-92 | RSemaphore.tryAcquire succeeds exactly when a permit is available, and then takes it |
| CacheStore.Cache.ReleasePermit | src/main/java/shuhuai/badmintonflashbackend/mq/ReservePublishCallbackHandler.java:69-70 | RSemaphore.release, as Release |
| CacheStore.Cache.TrySetPermits | src/main/java/shuhuai/badmintonflashbackend/service/impl/AdminServiceImpl.java:336-339 | trySetPermits initialises only a semaphore that does not exist |
| CacheStore.Cache.SetPending | src/main/java/shuhuai/badmintonflashbackend/service/impl/ReserveServiceImpl.java:94-96 | the pending record is stored under the trace id, nothing else changes |
| CacheStore.Cache.TakePending | src/main/java/shuhuai/badmintonflashbackend/mq/ReservePublishCallbackHandler.java:50-51 | getAndDelete returns the record and removes it |
| CacheStore.Cache.DeletePending | src/main/java/shuhuai/badmintonflashbackend/mq/ReservePublishCallbackHandler.java:74-79 | the record under the trace id is removed, nothing else changes |
| RedisKeys.Padded | src/main/java/shuhuai/badmintonflashbackend/utils/DateTimes.java:30-32 | the zero-padded field has exactly the requested width and only digits |
| RedisKeys.TtlToEndOfDaySeconds | src/main/java/shuhuai/badmintonflashbackend/constant/RedisKeys.java:77-83 | the TTL is the seconds to the end of the day, never less than 60 |
| RedisKeys.EveryKeyIsPrefixed | src/main/java/shuhuai/badmintonflashbackend/constant/RedisKeys.java:15-71 | every key the services build starts with "bf:" |
| RedisKeys.PerSlotKeysInjective | src/main/java/shuhuai/badmintonflashbackend/constant/RedisKeys.java:18-46 | semaphore, dedup, binding and warm-flag keys are injective in the slot id |
| RedisKeys.PerSlotFamiliesDisjoint | src/main/java/shuhuai/badmintonflashbackend/constant/RedisKeys.java:18-46 | no two per-slot key families share a key, whatever the slot ids |
| RedisKeys.GateKeyNotGateTimeKey | src/main/java/shuhuai/badmintonflashbackend/constant/RedisKeys.java:34-41 | a session's gate key never equals any gate-time key |
| RedisKeys.WarmupDoneKeyNotSessionDoneKey | src/main/java/shuhuai/badmintonflashbackend/constant/RedisKeys.java:44-51 | a slot's warm flag never collides with a session's warmup-done flag |
| RedisKeys.JobKeysDistinct | src/main/java/shuhuai/badmintonflashbackend/constant/RedisKeys.java:49-66 | lock keys differ from done keys, and warmup keys from slot-generation keys, for all days and sessions |
| RedisKeys.YyyymmddInjective | src/main/java/shuhuai/badmintonflashbackend/utils/DateTimes.java:30-32 | distinct valid dates have distinct yyyyMMdd stamps |
| RedisKeys.DaySessionKeyInjective | src/main/java/shuhuai/badmintonflashbackend/constant/RedisKeys.java:49-51 | the per-day, per-session key is injective in the pair |
| RedisKeys.DaySessionKeysInjective | src/main/java/shuhuai/badmintonflashbackend/constant/RedisKeys.java:54-66 | the same for the session lock, generation-done and generation-lock keys |
| PublishCallback.EncodePending | src/main/java/shuhuai/badmintonflashbackend/service/impl/ReserveServiceImpl.java:95-96 | the record is "userId:slotId" with exactly one ':' |
| PublishCallback.SplitFirst | src/main/java/shuhuai/badmintonflashbackend/mq/ReservePublishCallbackHandler.java:55-58 | split(":", 2) yields the text before the first ':' and the rest, or the whole string when there is no ':' |
| PublishCallback.DecodePending | src/main/java/shuhuai/badmintonflashbackend/mq/ReservePublishCallbackHandler.java:55-66 | a decoded record yields two values in the Integer range; a record without ':' gives nothing |
| PublishCallback.DecodePendingParts | src/main/java/shuhuai/badmintonflashbackend/mq/ReservePublishCallbackHandler.java:55-66 | a record "a:b" with no ':' in a decodes exactly when both a and b parse as Integers, and then to (parseInt(a), parseInt(b)) |
| PublishCallback.DecodeEncodePending | src/main/java/shuhuai/badmintonflashbackend/mq/ReservePublishCallbackHandler.java:55-66 | decoding inverts the claim path's encoding for all Integer ids |
| PublishCallback.CompensateWithoutRecord | src/main/java/shuhuai/badmintonflashbackend/mq/ReservePublishCallbackHandler.java:46-54 | an empty trace id or a missing record changes nothing |
| PublishCallback.CompensateIdempotent | src/main/java/shuhuai/badmintonflashbackend/mq/ReservePublishCallbackHandler.java:50-51 | the record is consumed, so a second compensation is a no-op |
| PublishCallback.CompensateMalformed | src/main/java/shuhuai/badmintonflashbackend/mq/ReservePublishCallbackHandler.java:55-66 | an undecodable record is consumed and nothing else changes |
| PublishCallback.CompensateValid | src/main/java/shuhuai/badmintonflashbackend/mq/ReservePublishCallbackHandler.java:67-70 | a valid record removes the user from the slot's dedup set, adds exactly one permit and is consumed |
| PublishCallback.CompensateDecoded | src/main/java/shuhuai/badmintonflashbackend/mq/ReservePublishCallbackHandler.java:67-70 | a record that decodes to a user and a slot removes that user from that slot's dedup set, adds one permit there, is consumed, and nothing else changes |
| PublishCallback.ClearPendingSpec | src/main/java/shuhuai/badmintonflashbackend/mq/ReservePublishCallbackHandler.java:74-79 | clearing removes only the pending record |
| PublishCallback.CompensateAfterClear | src/main/java/shuhuai/badmintonflashbackend/mq/ReservePublishCallbackHandler.java:74-79 | after clearPending a compensation for the trace does nothing |
| PublishCallback.FirstPresent | src/main/java/shuhuai/badmintonflashbackend/mq/ReservePublishCallbackHandler.java:35-39 | the reference chain picks the first present, non-empty candidate |
| PublishCallback.ConfirmTrace | src/main/java/shuhuai/badmintonflashbackend/mq/ReservePublishCallbackHandler.java:23-28 | only a nack carrying correlation data names a trace |
| PublishCallback.ReturnedTraceIsFirstPresent | src/main/java/shuhuai/badmintonflashbackend/mq/ReservePublishCallbackHandler.java:30-42 | a returned message's trace is the first present of message id and header |
| PublishCallback.Compensate | src/main/java/shuhuai/badmintonflashbackend/mq/ReservePublishCallbackHandler.java:46-72 | the handler's cache operations produce the compensation specification |
| PublishCallback.ClearPending | src/main/java/shuhuai/badmintonflashbackend/mq/ReservePublishCallbackHandler.java:74-79 | the handler produces the clear specification |
| PublishCallback.OnConfirm | src/main/java/shuhuai/badmintonflashbackend/mq/ReservePublishCallbackHandler.java:23-28 | an ack or missing correlation changes nothing; a nack compensates its trace |
| PublishCallback.OnReturned | src/main/java/shuhuai/badmintonflashbackend/mq/ReservePublishCallbackHandler.java:30-44 | a returned message compensates its trace, if it has one |
| DlqConsumer.DlqTraceIdIsFirstPresent | src/main/java/shuhuai/badmintonflashbackend/mq/consumer/ReserveDlqConsumer.java:22-32 | the fallback chain picks the first present, non-empty of payload trace, message id and header |
| DlqConsumer.HandleDlq | src/main/java/shuhuai/badmintonflashbackend/mq/consumer/ReserveDlqConsumer.java:21-39 | no trace id changes nothing; otherwise exactly one compensation for it |
| ReserveService.ReserveRejectsForeignSlot | src/main/java/shuhuai/badmintonflashbackend/service/impl/ReserveServiceImpl.java:61-65 | a slot not bound to the session is a parameter error whatever the rate limiter says, and nothing changes |
| ReserveService.ReserveRateLimited | src/main/java/shuhuai/badmintonflashbackend/service/impl/ReserveServiceImpl.java:67-71 | a refused rate limit is TOO_MANY_REQUESTS and changes nothing |
| ReserveService.ReserveUngated | src/main/java/shuhuai/badmintonflashbackend/service/impl/ReserveServiceImpl.java:73-77 | any gate other than "1" is UNGATED and changes nothing |
| ReserveService.ReserveDuplicate | src/main/java/shuhuai/badmintonflashbackend/service/impl/ReserveServiceImpl.java:79-84 | a user already in the dedup set is DUP_REQ and the permits are untouched |
| ReserveService.ReserveOutOfStock | src/main/java/shuhuai/badmintonflashbackend/service/impl/ReserveServiceImpl.java:86-92 | without a permit the claim is OUT_OF_STOCK and the rollback restores the cache exactly |
| ReserveService.AdmitChangesExactlyThree | src/main/java/shuhuai/badmintonflashbackend/service/impl/ReserveServiceImpl.java:79-96 | passing all checks changes exactly one permit, one dedup membership and the pending record |
| ReserveService.ReserveKeepsClaim | src/main/java/shuhuai/badmintonflashbackend/service/impl/ReserveServiceImpl.java:118-133 | an ack or a confirm timeout keeps the claim and returns the trace; an interrupted wait fails but keeps it |
| ReserveService.CompensateUndoesClaim | src/main/java/shuhuai/badmintonflashbackend/service/impl/ReserveServiceImpl.java:100-125 | compensating a fresh claim restores the cache exactly |
| ReserveService.ReserveFailedPublishRestores | src/main/java/shuhuai/badmintonflashbackend/service/impl/ReserveServiceImpl.java:100-125 | a send error, a nack or a null confirm fails the request and leaves the cache as before the claim |
| ReserveService.ReserveKeepsCacheInvariants | src/main/java/shuhuai/badmintonflashbackend/service/impl/ReserveServiceImpl.java:59-134 | no outcome of reserve makes a permit count negative or leaves an empty set |
| ReserveService.Admit | src/main/java/shuhuai/badmintonflashbackend/service/impl/ReserveServiceImpl.java:59-96 | the binding, rate-limit, gate, dedup and permit checks followed by the pending record, one cache operation at a time, produce the admission specification |
| ReserveService.Reserve | src/main/java/shuhuai/badmintonflashbackend/service/impl/ReserveServiceImpl.java:59-134 | the step-by-step cache operations produce the reserve specification |
| ReserveService.CancelEffect | src/main/java/shuhuai/badmintonflashbackend/service/impl/ReserveServiceImpl.java:138-161 | a cancel succeeds only on the caller's pending reservation, cancels it, closes its PAYING orders and gives the slot back; a failure changes nothing |
| ReserveService.CancelTimeoutAtMostOnce | src/main/java/shuhuai/badmintonflashbackend/service/impl/ReserveServiceImpl.java:165-182 | reaping a reservation twice gives its resources back once |
| ReserveService.CancelKeepsUniqueSlots | src/main/java/shuhuai/badmintonflashbackend/service/impl/ReserveServiceImpl.java:138-182 | both cancellations keep slot-holding reservations unique |
| ReserveService.ClosePayingOrders | src/main/java/shuhuai/badmintonflashbackend/service/impl/ReserveServiceImpl.java:184-192 | the method performs CloseOrders on the order table |
| ReserveService.ReleaseReserveResource | src/main/java/shuhuai/badmintonflashbackend/service/impl/ReserveServiceImpl.java:194-204 | the method performs the release specification on the cache |
| ReserveService.Cancel | src/main/java/shuhuai/badmintonflashbackend/service/impl/ReserveServiceImpl.java:138-161 | the method matches the cancel specification on tables and cache |
| ReserveService.CancelTimeoutPending | src/main/java/shuhuai/badmintonflashbackend/service/impl/ReserveServiceImpl.java:165-182 | the method matches the timeout specification on tables and cache |
| ReserveConsumer.HandleInsertsOnlyForFreshSlot | src/main/java/shuhuai/badmintonflashbackend/mq/consumer/ReserveConsumer.java:25-47 | a row is inserted exactly when no row of the slot exists, keeping slot-holding rows unique |
| ReserveConsumer.HandleIdempotent | src/main/java/shuhuai/badmintonflashbackend/mq/consumer/ReserveConsumer.java:30-35 | a redelivered message changes nothing |
| ReserveConsumer.HandleDropsReclaimAfterCancel | src/main/java/shuhuai/badmintonflashbackend/mq/consumer/ReserveConsumer.java:30-35 | as written, a cancelled row makes a later admitted claim of the slot write nothing |
| ReserveConsumer.HandleHeldLeavesSlotHeld | src/main/java/shuhuai/badmintonflashbackend/mq/consumer/ReserveConsumer.java:30-40 | the corrected consumer never fails, always leaves the slot held and inserts only when it was free |
| ReserveConsumer.HandleHeldIdempotent | src/main/java/shuhuai/badmintonflashbackend/mq/consumer/ReserveConsumer.java:30-40 | the corrected consumer is idempotent |
| ReserveConsumer.HandleHeldKeepsReclaimAfterCancel | src/main/java/shuhuai/badmintonflashbackend/mq/consumer/ReserveConsumer.java:30-40 | the corrected consumer writes the re-claim after a cancellation |
| ReserveConsumer.Handle | src/main/java/shuhuai/badmintonflashbackend/mq/consumer/ReserveConsumer.java:25-47 | the consumer on the store matches its specification, rethrowing failures |
| TimeSlots.SlotsPerCourt | src/main/java/shuhuai/badmintonflashbackend/service/impl/TimeSlotServiceImpl.java:63-66 | the inner loop runs span / interval times on a divisible, non-empty window and never otherwise |
| TimeSlots.SlotAt | src/main/java/shuhuai/badmintonflashbackend/service/impl/TimeSlotServiceImpl.java:67-73 | the k-th slot starts k intervals after the beginning and lasts one interval |
| TimeSlots.CourtSlots | src/main/java/shuhuai/badmintonflashbackend/service/impl/TimeSlotServiceImpl.java:64-74 | one court's slots: one per interval, for that court |
| TimeSlots.CourtSlotsTileWindow | src/main/java/shuhuai/badmintonflashbackend/service/impl/TimeSlotServiceImpl.java:59-74 | a court's slots tile the session window without gap or overlap |
| TimeSlots.BatchLength | src/main/java/shuhuai/badmintonflashbackend/service/impl/TimeSlotServiceImpl.java:63-75 | the batch has slots-per-court times the number of courts rows |
| TimeSlots.BatchGenerated | src/main/java/shuhuai/badmintonflashbackend/service/impl/TimeSlotServiceImpl.java:63-75 | every batch slot carries the date, the session, a listed court and a one-interval span inside the window |
| TimeSlots.GenerateOutcomes | src/main/java/shuhuai/badmintonflashbackend/service/impl/TimeSlotServiceImpl.java:50-81 | a missing session or a collision changes nothing, indivisibility is the only error, otherwise exactly the batch is appended |
| TimeSlots.GenerateIdempotent | src/main/java/shuhuai/badmintonflashbackend/service/impl/TimeSlotServiceImpl.java:76-80 | generating the same day and session again succeeds and changes nothing |
| TimeSlots.CourtRow | src/main/java/shuhuai/badmintonflashbackend/service/impl/TimeSlotServiceImpl.java:64-74 | the inner loop builds exactly the court's slots |
| TimeSlots.BuildBatch | src/main/java/shuhuai/badmintonflashbackend/service/impl/TimeSlotServiceImpl.java:63-75 | the outer loop builds exactly the batch |
| TimeSlots.GenerateForDate | src/main/java/shuhuai/badmintonflashbackend/service/impl/TimeSlotServiceImpl.java:50-81 | the method matches the generation specification |
| TimeSlots.Retire | src/main/java/shuhuai/badmintonflashbackend/service/impl/TimeSlotServiceImpl.java:110-111 | a delete by session and date keeps the row count (logical delete) |
| TimeSlots.RetireThenGenerate | src/main/java/shuhuai/badmintonflashbackend/service/impl/TimeSlotServiceImpl.java:95-100 | after retiring a day, generation for it appends the whole fresh batch |
| TimeSlots.HandlersIdleAfterBegin | src/main/java/shuhuai/badmintonflashbackend/service/impl/TimeSlotServiceImpl.java:85-112 | once the session has begun neither handler touches the slots |
| TimeSlots.DeleteTodayEffect | src/main/java/shuhuai/badmintonflashbackend/service/impl/TimeSlotServiceImpl.java:103-112 | deletion retires exactly today's slots of the session |
| TimeSlots.UpdateRegeneratesToday | src/main/java/shuhuai/badmintonflashbackend/service/impl/TimeSlotServiceImpl.java:95-100 | after an update the session's live slots today are exactly a fresh batch |
| TimeSlots.DeleteSessionHandler | src/main/java/shuhuai/badmintonflashbackend/service/impl/TimeSlotServiceImpl.java:103-112 | the method matches the delete specification |
| TimeSlots.AddSessionHandler | src/main/java/shuhuai/badmintonflashbackend/service/impl/TimeSlotServiceImpl.java:85-91 | the method matches the add specification |
| TimeSlots.UpdateSessionHandler | src/main/java/shuhuai/badmintonflashbackend/service/impl/TimeSlotServiceImpl.java:95-100 | the method matches delete-then-add, rolled back on failure |
| AdminConfig.SessionConfigCheckIff | src/main/java/shuhuai/badmintonflashbackend/service/impl/AdminServiceImpl.java:161-183 | a session passes exactly when generation, warmup, flash and the window are ordered within the day and the window divides |
| AdminConfig.AcceptedSessionGenerates | src/main/java/shuhuai/badmintonflashbackend/service/impl/AdminServiceImpl.java:161-183 | an accepted session cuts into at least one whole slot per court |
| AdminConfig.CheckSessions | src/main/java/shuhuai/badmintonflashbackend/service/impl/AdminServiceImpl.java:122-129 | the session loop succeeds exactly when every session has a flash time and passes the check |
| AdminConfig.NamesUpToMembers | src/main/java/shuhuai/badmintonflashbackend/service/impl/AdminServiceImpl.java:524-539 | the name set holds exactly the names of the courts so far |
| AdminConfig.NamesUpToCount | src/main/java/shuhuai/badmintonflashbackend/service/impl/AdminServiceImpl.java:524-539 | the name set has count members exactly when no two courts share a name |
| AdminConfig.NamesDecideConfig | src/main/java/shuhuai/badmintonflashbackend/service/impl/AdminServiceImpl.java:524-539 | once every name is defined, the size check decides the court settings |
| AdminConfig.ValidCourtConfig | src/main/java/shuhuai/badmintonflashbackend/service/impl/AdminServiceImpl.java:524-539 | the court settings are accepted exactly when the format mentions %d and names every court distinctly |
| AdminConfig.CanUpdateCourtCountNow | src/main/java/shuhuai/badmintonflashbackend/service/impl/AdminServiceImpl.java:541-559 | the count may change exactly while the clock is before every session's warmup time |
| AdminConfig.SyncedIdsShape | src/main/java/shuhuai/badmintonflashbackend/service/impl/AdminServiceImpl.java:561-587 | reconciliation keeps the lowest existing ids and adds only fresh ones |
| AdminConfig.SyncCourts | src/main/java/shuhuai/badmintonflashbackend/service/impl/AdminServiceImpl.java:561-587 | after syncing, the court table is in step with the settings with the expected ids |
| AdminConfig.InsertCourts | src/main/java/shuhuai/badmintonflashbackend/service/impl/AdminServiceImpl.java:564-570 | the insert loop appends one active court per missing position, named for it |
| AdminConfig.InsertStep | src/main/java/shuhuai/badmintonflashbackend/service/impl/AdminServiceImpl.java:564-570 | an inserted court takes the next fresh id |
| AdminConfig.DeleteCourts | src/main/java/shuhuai/badmintonflashbackend/service/impl/AdminServiceImpl.java:571-576 | the delete loop retires the surplus courts with the highest ids |
| AdminConfig.DeleteStep | src/main/java/shuhuai/badmintonflashbackend/service/impl/AdminServiceImpl.java:571-576 | each step retires the court at the target position |
| AdminConfig.RetireLoop | src/main/java/shuhuai/badmintonflashbackend/service/impl/AdminServiceImpl.java:571-576 | the loop retires the courts at positions target.. of the active list, in order |
| AdminConfig.RetirePrefixActive | src/main/java/shuhuai/badmintonflashbackend/service/impl/AdminServiceImpl.java:571-576 | after retiring positions target..i - 1, the active ids are those before target and those from i on, and no name changed |
| AdminConfig.RenameCourts | src/main/java/shuhuai/badmintonflashbackend/service/impl/AdminServiceImpl.java:577-586 | the rename loop names every active court for its position |
| AdminConfig.RenameLoop | src/main/java/shuhuai/badmintonflashbackend/service/impl/AdminServiceImpl.java:577-586 | the loop renames the k-th active court for position k, in order |
| AdminConfig.RenamePrefixNamed | src/main/java/shuhuai/badmintonflashbackend/service/impl/AdminServiceImpl.java:577-586 | after k steps the first k active courts carry the names of positions 1..k and no court changed its active flag |
| AdminConfig.RenamePrefixInStep | src/main/java/shuhuai/badmintonflashbackend/service/impl/AdminServiceImpl.java:577-586 | when every active court already has its position's name, no step changes anything |
| AdminConfig.RenameCourtsDone | src/main/java/shuhuai/badmintonflashbackend/service/impl/AdminServiceImpl.java:577-586 | the finished loop keeps the active ids, leaves the table in step, and leaves a table already in step unchanged |
| AdminConfig.IsCourtNameMismatched | src/main/java/shuhuai/badmintonflashbackend/service/impl/AdminServiceImpl.java:655-664 | a mismatch is reported exactly when one of the first courts carries another name than its position's |
| AdminConfig.InStepIffNoMismatch | src/main/java/shuhuai/badmintonflashbackend/service/impl/AdminServiceImpl.java:455-489 | the start-up reconciliation has nothing to repair exactly when the table is in step |
| AdminConfig.LoadSettings | src/main/java/shuhuai/badmintonflashbackend/service/impl/AdminServiceImpl.java:87-98 | loading fails exactly on a missing or unparsable required setting, with the documented defaults otherwise |
| AdminConfig.MergeFailsIffUnparsable | src/main/java/shuhuai/badmintonflashbackend/service/impl/AdminServiceImpl.java:101-118 | the merge fails exactly when a usable item does not parse, with a parameter error |
| AdminConfig.LastTextFound | src/main/java/shuhuai/badmintonflashbackend/service/impl/AdminServiceImpl.java:101-118 | the text found for a key is a usable item's for that key, and none is found only when no usable item names it |
| AdminConfig.MergeLastWins | src/main/java/shuhuai/badmintonflashbackend/service/impl/AdminServiceImpl.java:101-118 | each setting takes the last usable item's value, else the stored one |
| AdminConfig.Validate | src/main/java/shuhuai/badmintonflashbackend/service/impl/AdminServiceImpl.java:119-136 | the validation order: negative warmup, sessions, court settings, then the count window |
| AdminConfig.AcceptedSettings | src/main/java/shuhuai/badmintonflashbackend/service/impl/AdminServiceImpl.java:119-136 | accepted settings generate whole slots, warm after generation, name courts distinctly and change the count only before warmup |
| AdminConfig.UpsertLastWins | src/main/java/shuhuai/badmintonflashbackend/service/impl/AdminServiceImpl.java:138-149 | after the write-back each key holds its last item's value, or its old value |
| AdminConfig.ChangedKeysSound | src/main/java/shuhuai/badmintonflashbackend/service/impl/AdminServiceImpl.java:138-149 | only named keys are reported changed, and every really changed key is |
| AdminConfig.WriteBack | src/main/java/shuhuai/badmintonflashbackend/service/impl/AdminServiceImpl.java:138-149 | the write-back loop matches its specification; a null item fails |
| AdminConfig.UpdateConfig | src/main/java/shuhuai/badmintonflashbackend/service/impl/AdminServiceImpl.java:82-159 | the update loads, merges, validates, syncs courts when needed and writes back, or changes nothing; the outcome for a non-empty list is ConfigUpdated |
| AdminConfig.MergeItems | src/main/java/shuhuai/badmintonflashbackend/service/impl/AdminServiceImpl.java:101-118 | the merge loop matches its specification |
| AdminConfig.MergeErrSticks | src/main/java/shuhuai/badmintonflashbackend/service/impl/AdminServiceImpl.java:101-118 | a failing prefix makes the whole merge fail the same way |
| AdminConfig.UpdateConfigItem | src/main/java/shuhuai/badmintonflashbackend/service/impl/AdminServiceImpl.java:73-78 | a single item with a null key or value does nothing; any other item has exactly the outcome (ConfigUpdated) of updateConfig on the one-item list |
| AdminWarmup.SessionSlotIds | src/main/java/shuhuai/badmintonflashbackend/service/impl/AdminServiceImpl.java:300-302 | every id listed is a live slot of the session on the day |
| AdminWarmup.SessionSlotIdsComplete | src/main/java/shuhuai/badmintonflashbackend/service/impl/AdminServiceImpl.java:300-302 | every live slot of the session on the day is listed |
| AdminWarmup.GenerateSlotGuarded | src/main/java/shuhuai/badmintonflashbackend/service/impl/AdminServiceImpl.java:416-452 | generation runs only without the done flag, sets it exactly on success and never removes rows |
| AdminWarmup.GenerateSlotIdempotent | src/main/java/shuhuai/badmintonflashbackend/service/impl/AdminServiceImpl.java:416-452 | a second run on the same day does nothing |
| AdminWarmup.GenerateSlot | src/main/java/shuhuai/badmintonflashbackend/service/impl/AdminServiceImpl.java:416-452 | the method matches the guarded generation |
| AdminWarmup.IsSlotWarmupComplete | src/main/java/shuhuai/badmintonflashbackend/service/impl/AdminServiceImpl.java:388-401 | a slot is complete exactly when its binding names the session and its semaphore and dedup set exist |
| AdminWarmup.IsSessionWarmupComplete | src/main/java/shuhuai/badmintonflashbackend/service/impl/AdminServiceImpl.java:373-386 | a session is complete exactly when every listed slot is |
| AdminWarmup.WarmSlotSpec | src/main/java/shuhuai/badmintonflashbackend/service/impl/AdminServiceImpl.java:325-351 | one loop turn creates only what is absent and sets the warm flag |
| AdminWarmup.WarmSlotsOnlyCreates | src/main/java/shuhuai/badmintonflashbackend/service/impl/AdminServiceImpl.java:325-351 | the loop never overwrites and leaves every listed slot with all four keys |
| AdminWarmup.WarmSlotsFixed | src/main/java/shuhuai/badmintonflashbackend/service/impl/AdminServiceImpl.java:325-351 | a fully warmed cache is left alone by the loop |
| AdminWarmup.ClosedGate | src/main/java/shuhuai/badmintonflashbackend/service/impl/AdminServiceImpl.java:351-354 | the session's gate exists afterwards; an existing gate keeps its value, a missing one is created closed, and nothing else changes |
| AdminWarmup.FinishWarmup | src/main/java/shuhuai/badmintonflashbackend/service/impl/AdminServiceImpl.java:352-364 | after the loop: a closed gate where none exists, the gate time, and the done flag when complete |
| AdminWarmup.WarmupOnlyCreates | src/main/java/shuhuai/badmintonflashbackend/service/impl/AdminServiceImpl.java:296-371 | warmup never refills, clears, rebinds or opens anything and leaves pending records alone |
| AdminWarmup.WarmupDoneOnlyWhenComplete | src/main/java/shuhuai/badmintonflashbackend/service/impl/AdminServiceImpl.java:362-364 | the session done flag is raised only on a complete cache |
| AdminWarmup.WarmupCompletes | src/main/java/shuhuai/badmintonflashbackend/service/impl/AdminServiceImpl.java:310-364 | a locked warmup completes the session unless a slot is bound elsewhere |
| AdminWarmup.WarmupIdempotent | src/main/java/shuhuai/badmintonflashbackend/service/impl/AdminServiceImpl.java:306-309 | a second warmup leaves the cache as the first left it |
| AdminWarmup.FinishRepeat | src/main/java/shuhuai/badmintonflashbackend/service/impl/AdminServiceImpl.java:352-364 | finishing twice changes nothing more |
| AdminWarmup.WarmupSessionOnlyCreates | src/main/java/shuhuai/badmintonflashbackend/service/impl/AdminServiceImpl.java:287-371 | a whole warmupSession keeps existing gates, creates at most its own closed gate and only adds done flags |
| AdminWarmup.WarmupSession | src/main/java/shuhuai/badmintonflashbackend/service/impl/AdminServiceImpl.java:287-371 | the method matches generation followed by the cache warmup |
| AdminWarmup.WarmupCache | src/main/java/shuhuai/badmintonflashbackend/service/impl/AdminServiceImpl.java:298-371 | the method matches the cache side of warmup |
| AdminWarmup.WarmSlots | src/main/java/shuhuai/badmintonflashbackend/service/impl/AdminServiceImpl.java:325-351 | the loop matches its specification |
| AdminWarmup.WarmSlot | src/main/java/shuhuai/badmintonflashbackend/service/impl/AdminServiceImpl.java:326-350 | one turn of the loop matches its specification |
| AdminWarmup.FinishWarmupCache | src/main/java/shuhuai/badmintonflashbackend/service/impl/AdminServiceImpl.java:352-364 | the steps after the loop match their specification |
| AdminWarmup.OpenSessionOpensGate | src/main/java/shuhuai/badmintonflashbackend/service/impl/AdminServiceImpl.java:404-413 | an unknown session is a parameter error that changes nothing; a failed warmup is passed on with its state; on success the session's gate is "1", no other gate changes except closed ones warmup created, and pending records, dedup sets and permits are as warmup left them |
| AdminWarmup.OpenSession | src/main/java/shuhuai/badmintonflashbackend/service/impl/AdminServiceImpl.java:404-413 | the result, slots and cache are those of OpenSessionSpec: warmupSession's outcome with the gate then set to "1", or a parameter error for a missing session |
| AdminWarmup.CleanupClearsExactly | src/main/java/shuhuai/badmintonflashbackend/service/impl/AdminServiceImpl.java:639-653 | the cleanup deletes the four keys of every listed slot and nothing else |
| AdminWarmup.CleanupReserveRedisBySlots | src/main/java/shuhuai/badmintonflashbackend/service/impl/AdminServiceImpl.java:639-653 | the loop matches the cleanup specification |
| AdminWarmup.ResetSessionCache | src/main/java/shuhuai/badmintonflashbackend/service/impl/AdminServiceImpl.java:605-637 | the cleanup and the session's flags, gate and gate time are deleted |
| AdminWarmup.RegenerateStartsAfresh | src/main/java/shuhuai/badmintonflashbackend/service/impl/AdminServiceImpl.java:605-637 | after a locked regeneration the day's slots are a fresh batch, retired slots hold no cache state and the session is closed and unflagged |
| AdminWarmup.RegenerateTodaySlotsForSession | src/main/java/shuhuai/badmintonflashbackend/service/impl/AdminServiceImpl.java:605-637 | the method matches the regeneration specification |
| ReserveDb.AdmitCases | src/main/java/shuhuai/badmintonflashbackend/service/impl/ReserveServiceDbImpl.java:46-71 | the checks give PARAM_ERROR exactly on malformed requests and UNGATED exactly before the slot opens |
| ReserveDb.ReserveInsertsOnce | src/main/java/shuhuai/badmintonflashbackend/service/impl/ReserveServiceDbImpl.java:44-95 | a reservation is inserted exactly when the checks pass and the slot is free, and slot-holding rows stay unique |
| ReserveDb.ReserveDuplicateResolved | src/main/java/shuhuai/badmintonflashbackend/service/impl/ReserveServiceDbImpl.java:83-94 | a rejected insert is DUP_REQ for the caller's own row, OUT_OF_STOCK for another's, FAILED otherwise |
| ReserveDb.Reserve | src/main/java/shuhuai/badmintonflashbackend/service/impl/ReserveServiceDbImpl.java:44-95 | the method matches the reserve specification |
| ReserveDb.ReserveThenResult | src/main/java/shuhuai/badmintonflashbackend/service/impl/ReserveServiceDbImpl.java:97-116 | the trace of a successful reserve resolves to the new pending row |
| ReserveDb.ResultOnlyForOwner | src/main/java/shuhuai/badmintonflashbackend/service/impl/ReserveServiceDbImpl.java:97-116 | the result never reveals another user's reservation |
| ReserveDb.CancelOnlyOwnPending | src/main/java/shuhuai/badmintonflashbackend/service/impl/ReserveServiceDbImpl.java:118-162 | cancel succeeds exactly on the caller's pending row; the timeout path acts at most once |
| ReserveDb.ClosePayingOrders | src/main/java/shuhuai/badmintonflashbackend/service/impl/ReserveServiceDbImpl.java:164-172 | the method performs CloseOrders |
| ReserveDb.Cancel | src/main/java/shuhuai/badmintonflashbackend/service/impl/ReserveServiceDbImpl.java:118-142 | the method matches the cancel specification |
| ReserveDb.CancelTimeoutPending | src/main/java/shuhuai/badmintonflashbackend/service/impl/ReserveServiceDbImpl.java:144-162 | the method matches the timeout specification |
| PayService.Latest | src/main/java/shuhuai/badmintonflashbackend/service/impl/PayServiceImpl.java:81-85 | the latest order satisfying the query is the highest-indexed one |
| PayService.CreateOutcomes | src/main/java/shuhuai/badmintonflashbackend/service/impl/PayServiceImpl.java:59-139 | payment creation fails without the lock or ownership, reuses an unexpired PAYING order, or replaces an expired one by exactly one new order |
| PayService.CreateKeepsSinglePaying | src/main/java/shuhuai/badmintonflashbackend/service/impl/PayServiceImpl.java:81-122 | creation keeps at most one PAYING order per reservation |
| PayService.CreateTwiceReuses | src/main/java/shuhuai/badmintonflashbackend/service/impl/PayServiceImpl.java:81-100 | a second creation reuses the first's order while it has not expired |
| PayService.CreateWechatPay | src/main/java/shuhuai/badmintonflashbackend/service/impl/PayServiceImpl.java:59-139 | the method matches the creation specification |
| PayService.MockSuccessConfirms | src/main/java/shuhuai/badmintonflashbackend/service/impl/PayServiceImpl.java:141-185 | a payment is recorded exactly on a payable order, confirming its reservation and nothing else |
| PayService.MockSuccessIdempotent | src/main/java/shuhuai/badmintonflashbackend/service/impl/PayServiceImpl.java:141-185 | repeating a mock payment changes nothing more |
| PayService.MockWechatPaySuccess | src/main/java/shuhuai/badmintonflashbackend/service/impl/PayServiceImpl.java:141-185 | the method matches the payment specification |
| PayService.RefundReturnsSlot | src/main/java/shuhuai/badmintonflashbackend/service/impl/PayServiceImpl.java:187-239 | a refund goes through exactly on a confirmed, paid reservation, refunds its latest order, cancels it and returns the slot; a second refund is a no-op |
| PayService.Refund | src/main/java/shuhuai/badmintonflashbackend/service/impl/PayServiceImpl.java:187-239 | the method matches the refund specification |
| PayService.GetPayResult | src/main/java/shuhuai/badmintonflashbackend/service/impl/PayServiceImpl.java:271-300 | the result is Ok exactly for the caller's own reservation and any failure is PARAM_ERROR; it reports the reservation's status and the highest-id pay order, or empty pay fields when there is none |
| TokenValidator.RoleOf | src/main/java/shuhuai/badmintonflashbackend/utils/TokenValidator.java:105-108 | a role name is known exactly when it is "USER" or "ADMIN" |
| TokenValidator.TrimStart | src/main/java/shuhuai/badmintonflashbackend/utils/TokenValidator.java:129-140 | the leading strip removes only characters up to U+0020 and leaves none at the front |
| TokenValidator.TrimEnd | src/main/java/shuhuai/badmintonflashbackend/utils/TokenValidator.java:129-140 | the trailing strip removes only characters up to U+0020 and leaves none at the back |
| TokenValidator.TrimKeeps | src/main/java/shuhuai/badmintonflashbackend/utils/TokenValidator.java:137-140 | a string with nothing to strip is its own trim |
| TokenValidator.TrimIsSlice | src/main/java/shuhuai/badmintonflashbackend/utils/TokenValidator.java:137-140 | trimming yields a slice with no strippable end character |
| TokenValidator.ParseAuthorization | src/main/java/shuhuai/badmintonflashbackend/utils/TokenValidator.java:129-140 | an accepted header yields a non-empty token without spaces; every refusal is TOKEN_INVALID |
| TokenValidator.AuthorizationRoundTrip | src/main/java/shuhuai/badmintonflashbackend/utils/TokenValidator.java:129-140 | "Bearer " + a well-formed token reads back as that token |
| TokenValidator.AuthorizationVerdict | src/main/java/shuhuai/badmintonflashbackend/utils/TokenValidator.java:129-140 | for every header: missing, blank or other-scheme is refused; with the "Bearer " prefix the trimmed rest is accepted exactly when it is non-empty and holds no space (two tokens) |
| TokenValidator.ParseTokenCases | src/main/java/shuhuai/badmintonflashbackend/utils/TokenValidator.java:92-113 | a principal needs user id and issue time; the role defaults to USER and an unknown role is refused |
| TokenValidator.RoleOrder | src/main/java/shuhuai/badmintonflashbackend/utils/TokenValidator.java:174-179 | hasRole is a partial order with ADMIN above USER |
| TokenValidator.RequiredRoles | src/main/java/shuhuai/badmintonflashbackend/utils/TokenValidator.java:181-191 | the method's roles override the class's, and no annotation requires nothing |
| TokenValidator.PreHandleDecides | src/main/java/shuhuai/badmintonflashbackend/utils/TokenValidator.java:124-172 | a request passes exactly with a good header, a valid token, a numeric user id and a permitted role; renewal happens exactly at the age threshold |
| TokenValidator.AdminSupersedesUser | src/main/java/shuhuai/badmintonflashbackend/utils/TokenValidator.java:157-169 | ADMIN passes wherever USER does, and USER fails where only ADMIN is required |
| Schedulers.WarmupTargets | src/main/java/shuhuai/badmintonflashbackend/scheduler/WarmupScheduler.java:42-44 | exactly the sessions whose flash time is in the window, in table order |
| Schedulers.WarmupWindowBounds | src/main/java/shuhuai/badmintonflashbackend/scheduler/WarmupScheduler.java:39-44 | the window is the plain interval away from midnight and empty when the bound wraps |
| Schedulers.WarmSessionsNeverOpen | src/main/java/shuhuai/badmintonflashbackend/scheduler/WarmupScheduler.java:36-49 | the warmup job never opens a gate and leaves pending records alone |
| Schedulers.WarmupNearFutureSlots | src/main/java/shuhuai/badmintonflashbackend/scheduler/WarmupScheduler.java:36-49 | the job warms the selected sessions in order at the current minute |
| Schedulers.WarmAll | src/main/java/shuhuai/badmintonflashbackend/scheduler/WarmupScheduler.java:45-48 | the loop warms the selected sessions in order, as the job's specification does |
| Schedulers.GateTargets | src/main/java/shuhuai/badmintonflashbackend/scheduler/WarmupScheduler.java:56-59 | exactly the sessions whose flash time has come, in table order |
| Schedulers.GateStepOnlyOpensWarmed | src/main/java/shuhuai/badmintonflashbackend/scheduler/WarmupScheduler.java:62-70 | one step never closes a gate and opens only its own, when today's done flag exists |
| Schedulers.OpenGatesOnlyOpenWarmed | src/main/java/shuhuai/badmintonflashbackend/scheduler/WarmupScheduler.java:55-72 | the gate job never closes a gate and opens only selected, warmed sessions |
| Schedulers.OpenGatesSkipOpen | src/main/java/shuhuai/badmintonflashbackend/scheduler/WarmupScheduler.java:62-65 | with every selected gate open the job changes nothing |
| Schedulers.OpenOne | src/main/java/shuhuai/badmintonflashbackend/scheduler/WarmupScheduler.java:62-70 | the loop body matches one gate step |
| Schedulers.OpenGate | src/main/java/shuhuai/badmintonflashbackend/scheduler/WarmupScheduler.java:55-72 | the job matches the gate specification |
| Schedulers.OpenAt | src/main/java/shuhuai/badmintonflashbackend/scheduler/WarmupScheduler.java:60-71 | one turn of the gate loop: a failure ends the loop with the specification's result, a success leaves the rest of the loop to reach the same result, and the tables other than the slots are untouched |
| Schedulers.OpenAll | src/main/java/shuhuai/badmintonflashbackend/scheduler/WarmupScheduler.java:61-71 | the loop matches the gate specification over the selection |
| Schedulers.DueIndices | src/main/java/shuhuai/badmintonflashbackend/scheduler/ReserveTimeoutScheduler.java:36-39 | exactly the pending reservations created by the deadline, in order; none when nothing is due |
| Schedulers.Reap | src/main/java/shuhuai/badmintonflashbackend/scheduler/ReserveTimeoutScheduler.java:40-42 | reaping never fails |
| Schedulers.ReapCancelsExactly | src/main/java/shuhuai/badmintonflashbackend/scheduler/ReserveTimeoutScheduler.java:40-42 | reaping cancels exactly the selected pending reservations |
| Schedulers.ReapClosesOrders | src/main/java/shuhuai/badmintonflashbackend/scheduler/ReserveTimeoutScheduler.java:40-42 | reaping closes their PAYING orders and no other order |
| Schedulers.CancelTimeoutPendingReservations | src/main/java/shuhuai/badmintonflashbackend/scheduler/ReserveTimeoutScheduler.java:31-43 | a non-positive timeout disables the job; otherwise every due reservation is reaped |
| Schedulers.ReapAll | src/main/java/shuhuai/badmintonflashbackend/scheduler/ReserveTimeoutScheduler.java:40-42 | the loop cancels the selected reservations in order, as the reaping specification does |
| Schedulers.ReapPassSettles | src/main/java/shuhuai/badmintonflashbackend/scheduler/ReserveTimeoutScheduler.java:31-43 | one pass cancels exactly the due reservations and a second pass with the same deadline does nothing |
| Schedulers.AllSessionIds | src/main/java/shuhuai/badmintonflashbackend/scheduler/DailySlotGenerateScheduler.java:36-39 | the ids of every session, in order |
| Schedulers.GenerateAllFlags | src/main/java/shuhuai/badmintonflashbackend/scheduler/DailySlotGenerateScheduler.java:36-39 | a successful pass with every lock flags every session; a pass only appends slots and adds flags |
| Schedulers.GenerateAllIdle | src/main/java/shuhuai/badmintonflashbackend/scheduler/DailySlotGenerateScheduler.java:36-39 | with every session flagged, a pass changes nothing |
| Schedulers.DailyCatchUpIdle | src/main/java/shuhuai/badmintonflashbackend/scheduler/DailySlotGenerateScheduler.java:27-40 | after one successful pass, later runs the same day change nothing |
| Schedulers.MaybeGenerateTodaySlots | src/main/java/shuhuai/badmintonflashbackend/scheduler/DailySlotGenerateScheduler.java:27-40 | nothing before the target minute; afterwards every session is generated in order |

## Left out

- Decimal.DecimalDigit: the decimal digits are the 37 runs of Nd digits in the Basic
  Multilingual Plane that Unicode 13 to 15 share; a Java runtime built on other Unicode
  data may recognise a different set.
- Concurrency: Redis locks, leases and their timeouts, and transactional isolation are
  not modelled. Each lock attempt is a boolean or oracle input, and every handler reads
  the clock once.
- Time to live: every cache key is modelled as living forever. TTLs, `expire` calls and
  the pending record's TTL are not modelled.
- The rate limiter's internal bucket: its verdict is an input.
- JWT signing, signature verification and expiry: the decoded token is an oracle
  input. `getToken` is not modelled.
- preHandle's thread-local user map and the response header carrying a renewed token:
  only the decision and whether a renewal happens are modelled.
- UUIDs and trade numbers: fresh trace ids and outTradeNo values are inputs.
- Payment amounts: BigDecimal amounts are integers. The configured pay amount is an
  input.
- The payment channel: only the mock WeChat channel exists. Third-party trade numbers
  are not modelled.
- PayService auto-mock (`triggerAutoMock`): it is a scheduled callback with no effect
  beyond calling `mockWechatPaySuccess`, which is modelled.
- String.format and LocalTime.parse: the court-name format is a function parameter, and
  settings are parsed by an input parser.
- `saveBatch`: it is all or nothing. A collision of the new batch with the live rows'
  natural key (date, session, court, start) stands for the unique key of the slot
  table.
- Time granularity: clocks are minutes or seconds of the day. Sub-minute precision of
  session times and zone conversion (the gate time's epoch second is an input) are
  not modelled.
- Integer widths: 64-bit overflow of long arithmetic is not modelled. Ids are Java
  Integers.
- `generateForDate(date)` for all sessions: it is not modelled separately. The
  schedulers' loops over `generateSlot` are.
- `regenerateTodaySlotsForAllSessions`, `triggerConfigCompensation` and the
  after-commit hook of `updateConfig`: they are loops over modelled operations, and
  they run after the transaction.
- `reconcileCourtsByConfigAtStartup` and the court bootstrap scheduler: only their
  decision (`isCourtNameMismatched`) and the reconciliation they perform (`syncCourts`)
  are modelled.
- The re-check of the done flag inside the warmup lock: with one clock reading and no
  concurrent writer it repeats the check before the lock.
- Duplicate rows in the configuration table: each key maps to one value.
- Logical deletion of sessions: `SessionById` finds every stored session.
- Dead branches: the `updated <= 0` branches after a conditional update on a row just
  read in the required status cannot be taken without a concurrent writer.
- Scheduler configuration parse failures: the warmup minutes, timeout minutes and
  generation time the jobs read are inputs.
- The reaper's choice of cancellation service: modelled with the cache-backed
  `ReserveService.CancelTimeoutPending`. The database mode, `ReserveDb`, is only
  active with `reserve.mode=db`.
- AdminWarmup.WarmupIdempotent: stated on the cache state only. The slot table is
  covered by GenerateSlotIdempotent.
- Schedulers.Reap: its own contract says only that it never fails. What it does is
  stated by ReapCancelsExactly, ReapClosesOrders and ReapPassSettles.

## Findings

| source | as written | input that shows it | evidently intended | confidence | as-written member | corrected member |
|---|---|---|---|---|---|---|
| src/main/java/shuhuai/badmintonflashbackend/mq/consumer/ReserveConsumer.java:30-35 | the duplicate check selects any reservation of the slot, including CANCELLED ones | user 1 claims slot 7 and later cancels (row CANCELLED); user 2 claims slot 7, is admitted and given a trace id; the consumer finds the cancelled row and writes nothing | only a row that still holds the slot (PENDING_PAYMENT or CONFIRMED) makes the message a duplicate | not executed | ReserveConsumer.HandleDropsReclaimAfterCancel | ReserveConsumer.HandleHeldLeavesSlotHeld |
