/** AdminServiceImpl, job side: generating a session's slots for a day behind a done
    flag and a lock, warming the cache for a session's slots, opening a session, and
    regenerating a day's slots after the court count changed. */
module AdminWarmup {
  import opened Common
  import opened CacheStore
  import opened Tables
  import opened TimeSlots

  // ---------------------------------------------------------------------------------
  // The slots of a session on a day

  predicate OfSessionOn(slot: TimeSlot, sessionId: int, day: Date) {
    slot.active && slot.sessionId == sessionId && slot.slotDate == Some(day)
  }

  /** The ids of the live slots of a session on a day, in id order: what the slot query
      returns. */
  function SessionSlotIds(slots: seq<TimeSlot>, sessionId: int, day: Date): (ids: seq<int>)
    ensures forall k :: 0 <= k < |ids| ==> IsId(slots, ids[k]) && OfSessionOn(slots[ids[k] - 1], sessionId, day)
  {
    if |slots| == 0 then []
    else
      var front := SessionSlotIds(slots[..|slots| - 1], sessionId, day);
      assert forall k :: 0 <= k < |front| ==> slots[..|slots| - 1][front[k] - 1] == slots[front[k] - 1];
      if OfSessionOn(slots[|slots| - 1], sessionId, day) then front + [|slots|] else front
  }

  /** Every live slot of the session on the day is listed. */
  lemma {:induction false} SessionSlotIdsComplete(slots: seq<TimeSlot>, sessionId: int, day: Date)
    ensures forall i :: 0 <= i < |slots| && OfSessionOn(slots[i], sessionId, day) ==> i + 1 in SessionSlotIds(slots, sessionId, day)
  {
    if |slots| > 0 {
      var front := slots[..|slots| - 1];
      SessionSlotIdsComplete(front, sessionId, day);
      assert forall i :: 0 <= i < |slots| - 1 ==> front[i] == slots[i];
    }
  }

  // ---------------------------------------------------------------------------------
  // generateSlot

  /** What generateSlot leaves: the slot table and the cache. */
  datatype Generation = Generation(result: Result<()>, slots: seq<TimeSlot>, cache: CacheView)

  /** generateSlot: a missing session, a done flag for the day, or a lock held elsewhere
      leave everything as it was; otherwise the day's slots are generated and the done
      flag is set, unless generation fails, which leaves the flag unset. */
  function GenerateSlotSpec(slots: seq<TimeSlot>, sessions: seq<FlashSession>, courts: seq<Court>, c: CacheView,
                            sessionId: int, today: Date, locked: bool): Generation
    requires PositiveIntervals(sessions)
  {
    if SessionById(sessions, sessionId).None? || (today, sessionId) in c.slotGenDone || !locked then
      Generation(Ok(()), slots, c)
    else match GenerateSpec(slots, sessions, courts, today, sessionId) {
      case Err(e) => Generation(Err(e), slots, c)
      case Ok(generated) => Generation(Ok(()), generated, c.(slotGenDone := c.slotGenDone + {(today, sessionId)}))
    }
  }

  /** The generator runs only without a done flag, sets the flag exactly when it
      succeeds, changes nothing else in the cache, and never removes rows. */
  lemma GenerateSlotGuarded(slots: seq<TimeSlot>, sessions: seq<FlashSession>, courts: seq<Court>, c: CacheView,
                            sessionId: int, today: Date, locked: bool)
    requires PositiveIntervals(sessions)
    ensures var g := GenerateSlotSpec(slots, sessions, courts, c, sessionId, today, locked);
      && ((today, sessionId) in c.slotGenDone || !locked ==> g == Generation(Ok(()), slots, c))
      && (g.slots != slots ==> (today, sessionId) !in c.slotGenDone && locked && (today, sessionId) in g.cache.slotGenDone)
      && (g.result.Err? ==> g.slots == slots && g.cache == c && g.result.code == TimeUndevided)
      && g.cache.(slotGenDone := c.slotGenDone) == c
      && |g.slots| >= |slots| && g.slots[..|slots|] == slots
  {
    GenerateOutcomes(slots, sessions, courts, today, sessionId);
  }

  /** A second run on the same day does nothing once the first succeeded with the lock. */
  lemma GenerateSlotIdempotent(slots: seq<TimeSlot>, sessions: seq<FlashSession>, courts: seq<Court>, c: CacheView,
                               sessionId: int, today: Date, locked: bool, lockedAgain: bool)
    requires PositiveIntervals(sessions)
    requires var g := GenerateSlotSpec(slots, sessions, courts, c, sessionId, today, locked);
      g.result.Ok? && (locked || (today, sessionId) in c.slotGenDone)
    ensures var g := GenerateSlotSpec(slots, sessions, courts, c, sessionId, today, locked);
      GenerateSlotSpec(g.slots, sessions, courts, g.cache, sessionId, today, lockedAgain) == g
  {
  }

  /** generateSlot on the store; the lock attempt is an input. */
  method GenerateSlot(db: Db, cache: Cache, sessionId: int, today: Date, locked: bool) returns (r: Result<()>)
    requires db.Valid()
    modifies db, cache
    ensures var g := GenerateSlotSpec(old(db.slots), old(db.sessions), old(db.courts), old(cache.View()), sessionId, today, locked);
      r == g.result && db.slots == g.slots && cache.View() == g.cache
    ensures db.reservations == old(db.reservations) && db.payOrders == old(db.payOrders)
    ensures db.courts == old(db.courts) && db.sessions == old(db.sessions)
  {
    if SessionById(db.sessions, sessionId).None? {
      return Ok(());
    }
    if (today, sessionId) in cache.slotGenDone {
      return Ok(());
    }
    if !locked {
      return Ok(());
    }
    ghost var spec := GenerateSpec(db.slots, db.sessions, db.courts, today, sessionId);
    r := GenerateForDate(db, today, sessionId);
    if r.Err? {
      assert spec.Err?;
      return;
    }
    assert spec == Ok(db.slots);
    cache.slotGenDone := cache.slotGenDone + {(today, sessionId)};
    r := Ok(());
  }

  // ---------------------------------------------------------------------------------
  // Warmup of the cache

  /** isSlotWarmupComplete: the slot is bound to the session and its warm flag,
      semaphore and dedup set exist. */
  predicate SlotWarm(c: CacheView, slotId: int, sessionId: int) {
    && slotId in c.binding && c.binding[slotId] == sessionId
    && slotId in c.slotWarm && slotId in c.permits && slotId in c.dedup
  }

  /** isSessionWarmupComplete: there are slots, every one is warm for the session, and
      the gate and gate-time keys exist. */
  predicate SessionWarm(c: CacheView, sessionId: int, slotIds: seq<int>) {
    && |slotIds| > 0
    && (forall k :: 0 <= k < |slotIds| ==> SlotWarm(c, slotIds[k], sessionId))
    && sessionId in c.gate && sessionId in c.gateTime
  }

  method IsSlotWarmupComplete(cache: Cache, slotId: int, sessionId: int) returns (b: bool)
    ensures b <==> SlotWarm(cache.View(), slotId, sessionId)
  {
    if !(slotId in cache.binding && cache.binding[slotId] == sessionId) {
      return false;
    }
    if slotId !in cache.slotWarm {
      return false;
    }
    if slotId !in cache.permits {
      return false;
    }
    return slotId in cache.dedup;
  }

  method IsSessionWarmupComplete(cache: Cache, sessionId: int, slotIds: seq<int>) returns (b: bool)
    ensures b <==> SessionWarm(cache.View(), sessionId, slotIds)
  {
    if |slotIds| == 0 {
      return false;
    }
    var i := 0;
    while i < |slotIds|
      invariant 0 <= i <= |slotIds|
      invariant forall k :: 0 <= k < i ==> SlotWarm(cache.View(), slotIds[k], sessionId)
    {
      var warm := IsSlotWarmupComplete(cache, slotIds[i], sessionId);
      if !warm {
        return false;
      }
      i := i + 1;
    }
    if sessionId !in cache.gate {
      return false;
    }
    return sessionId in cache.gateTime;
  }

  /** One turn of the warmup loop: a complete slot is skipped; otherwise the binding, a
      one-permit semaphore and the dedup set holding the placeholder -1 are created where
      absent, and the warm flag is set. */
  function WarmSlotSpec(c: CacheView, slotId: int, sessionId: int): (r: CacheView)
    ensures forall s :: s in c.permits ==> s in r.permits && r.permits[s] == c.permits[s]
    ensures forall s :: s in r.permits && s !in c.permits ==> s == slotId && r.permits[s] == 1
    ensures forall s :: s in c.dedup ==> s in r.dedup && r.dedup[s] == c.dedup[s]
    ensures forall s :: s in r.dedup && s !in c.dedup ==> s == slotId && r.dedup[s] == {-1}
    ensures forall s :: s in c.binding ==> s in r.binding && r.binding[s] == c.binding[s]
    ensures forall s :: s in r.binding && s !in c.binding ==> s == slotId && r.binding[s] == sessionId
    ensures r.slotWarm == c.slotWarm + {slotId}
    ensures slotId in r.binding && slotId in r.permits && slotId in r.dedup
    ensures r.gate == c.gate && r.gateTime == c.gateTime && r.pending == c.pending
    ensures r.sessionWarmDone == c.sessionWarmDone && r.slotGenDone == c.slotGenDone
    ensures WellFormed(c) ==> WellFormed(r)
  {
    if slotId in c.slotWarm && SlotWarm(c, slotId, sessionId) then c
    else c.(binding := if slotId in c.binding then c.binding else c.binding[slotId := sessionId],
            permits := if slotId in c.permits then c.permits else c.permits[slotId := 1],
            dedup := if slotId in c.dedup then c.dedup else c.dedup[slotId := {-1}],
            slotWarm := c.slotWarm + {slotId})
  }

  /** The warmup loop over the slots, in order. */
  function WarmSlotsSpec(c: CacheView, slotIds: seq<int>, sessionId: int): CacheView {
    if |slotIds| == 0 then c
    else WarmSlotSpec(WarmSlotsSpec(c, slotIds[..|slotIds| - 1], sessionId), slotIds[|slotIds| - 1], sessionId)
  }

  /** r differs from c only by creating: existing semaphores, dedup sets and bindings keep
      their values, new ones belong to the listed slots and start at one permit, the
      placeholder and the session; every listed slot ends with all four keys. */
  ghost predicate OnlyCreates(c: CacheView, r: CacheView, slotIds: seq<int>, sessionId: int) {
    && (forall s :: s in c.permits ==> s in r.permits && r.permits[s] == c.permits[s])
    && (forall s :: s in r.permits && s !in c.permits ==> s in slotIds && r.permits[s] == 1)
    && (forall s :: s in c.dedup ==> s in r.dedup && r.dedup[s] == c.dedup[s])
    && (forall s :: s in r.dedup && s !in c.dedup ==> s in slotIds && r.dedup[s] == {-1})
    && (forall s :: s in c.binding ==> s in r.binding && r.binding[s] == c.binding[s])
    && (forall s :: s in r.binding && s !in c.binding ==> s in slotIds && r.binding[s] == sessionId)
    && (forall s :: s in r.slotWarm <==> s in c.slotWarm || s in slotIds)
    && (forall s :: s in slotIds ==> s in r.binding && s in r.permits && s in r.dedup)
    && r.gate == c.gate && r.gateTime == c.gateTime && r.pending == c.pending
    && r.sessionWarmDone == c.sessionWarmDone && r.slotGenDone == c.slotGenDone
    && (WellFormed(c) ==> WellFormed(r))
  }

  /** The warmup loop only creates. */
  lemma {:induction false} WarmSlotsOnlyCreates(c: CacheView, slotIds: seq<int>, sessionId: int)
    ensures OnlyCreates(c, WarmSlotsSpec(c, slotIds, sessionId), slotIds, sessionId)
  {
    if |slotIds| > 0 {
      var front := slotIds[..|slotIds| - 1];
      WarmSlotsOnlyCreates(c, front, sessionId);
      OnlyCreatesStep(c, WarmSlotsSpec(c, front, sessionId), slotIds, sessionId);
    }
  }

  lemma OnlyCreatesStep(c: CacheView, r0: CacheView, slotIds: seq<int>, sessionId: int)
    requires |slotIds| > 0 && OnlyCreates(c, r0, slotIds[..|slotIds| - 1], sessionId)
    ensures OnlyCreates(c, WarmSlotSpec(r0, slotIds[|slotIds| - 1], sessionId), slotIds, sessionId)
  {
    var front := slotIds[..|slotIds| - 1];
    forall s | s in front
      ensures s in slotIds
    {
      var k :| 0 <= k < |front| && front[k] == s;
      assert slotIds[k] == s;
    }
    forall s | s in slotIds
      ensures s in front || s == slotIds[|slotIds| - 1]
    {
      var k :| 0 <= k < |slotIds| && slotIds[k] == s;
      if k < |front| {
        assert front[k] == s;
      }
    }
  }

  /** A cache in which every listed slot has all four keys is left alone by the loop. */
  lemma {:induction false} WarmSlotsFixed(c: CacheView, slotIds: seq<int>, sessionId: int)
    requires forall s :: s in slotIds ==> s in c.binding && s in c.permits && s in c.dedup && s in c.slotWarm
    ensures WarmSlotsSpec(c, slotIds, sessionId) == c
  {
    if |slotIds| > 0 {
      var front := slotIds[..|slotIds| - 1];
      forall s | s in front
        ensures s in slotIds
      {
        var k :| 0 <= k < |front| && front[k] == s;
        assert slotIds[k] == s;
      }
      WarmSlotsFixed(c, front, sessionId);
      var last := slotIds[|slotIds| - 1];
      assert last in slotIds;
      assert c.slotWarm + {last} == c.slotWarm;
    }
  }

  /** What warmupSession leaves in the cache, and whether it completed normally. */
  datatype Warmup = Warmup(result: Result<()>, cache: CacheView)

  /** The cache side of warmupSession, given the day's slot ids: nothing without slots,
      nothing when the session is already flagged and complete, nothing without the
      lock; otherwise the loop, a closed gate where none exists, the gate time set to
      the flash instant, and the session's done flag when it is now complete. A session
      without a flash time fails after the loop and the gate, as the instant cannot be
      computed. */
  function WarmupCacheSpec(c: CacheView, slotIds: seq<int>, sessionId: int, today: Date, locked: bool,
                           flash: Option<TimeOfDay>, epochOf: (Date, TimeOfDay) -> int): Warmup
  {
    if |slotIds| == 0 || ((today, sessionId) in c.sessionWarmDone && SessionWarm(c, sessionId, slotIds)) || !locked then
      Warmup(Ok(()), c)
    else FinishWarmup(WarmSlotsSpec(c, slotIds, sessionId), slotIds, sessionId, today, flash, epochOf)
  }

  /** The session's gate, created closed when it does not exist yet. */
  function ClosedGate(w: CacheView, sessionId: int): (g: CacheView)
    ensures g.(gate := w.gate) == w
    ensures forall q :: q in w.gate ==> q in g.gate && g.gate[q] == w.gate[q]
    ensures forall q :: q in g.gate && q !in w.gate ==> q == sessionId && g.gate[q] == "0"
    ensures sessionId in g.gate
  {
    if sessionId in w.gate then w else w.(gate := w.gate[sessionId := "0"])
  }

  /** The part of warmupSession after the slot loop: a closed gate where none exists,
      the gate time, and the done flag when the session is complete. */
  function FinishWarmup(w: CacheView, slotIds: seq<int>, sessionId: int, today: Date,
                        flash: Option<TimeOfDay>, epochOf: (Date, TimeOfDay) -> int): (r: Warmup)
    ensures r.cache.(gate := w.gate, gateTime := w.gateTime, sessionWarmDone := w.sessionWarmDone) == w
    ensures forall q :: q in w.gate ==> q in r.cache.gate && r.cache.gate[q] == w.gate[q]
    ensures forall q :: q in r.cache.gate && q !in w.gate ==> q == sessionId && r.cache.gate[q] == "0"
    ensures sessionId in r.cache.gate
    ensures r.result.Err? <==> flash.None?
    ensures r.result.Err? ==> r.result.code == Unexpected
    ensures forall d :: d in w.sessionWarmDone ==> d in r.cache.sessionWarmDone
    ensures forall d :: d in r.cache.sessionWarmDone && d !in w.sessionWarmDone ==>
      d == (today, sessionId) && SessionWarm(r.cache, sessionId, slotIds)
  {
    var g := ClosedGate(w, sessionId);
    match flash {
      case None => Warmup(Err(Unexpected), g)
      case Some(f) =>
        var t := g.(gateTime := g.gateTime[sessionId := epochOf(today, f)]);
        if SessionWarm(t, sessionId, slotIds) then Warmup(Ok(()), t.(sessionWarmDone := t.sessionWarmDone + {(today, sessionId)}))
        else Warmup(Ok(()), t)
    }
  }

  /** Warmup never refills a semaphore, never clears a dedup set, never rebinds a slot,
      never closes an open gate and leaves other sessions' gates and the pending records
      alone; what it creates starts at one permit, the placeholder and the session. */
  lemma WarmupOnlyCreates(c: CacheView, slotIds: seq<int>, sessionId: int, today: Date, locked: bool,
                          flash: Option<TimeOfDay>, epochOf: (Date, TimeOfDay) -> int)
    ensures var r := WarmupCacheSpec(c, slotIds, sessionId, today, locked, flash, epochOf).cache;
      && (forall s :: s in c.permits ==> s in r.permits && r.permits[s] == c.permits[s])
      && (forall s :: s in r.permits && s !in c.permits ==> s in slotIds && r.permits[s] == 1)
      && (forall s :: s in c.dedup ==> s in r.dedup && r.dedup[s] == c.dedup[s])
      && (forall s :: s in r.dedup && s !in c.dedup ==> s in slotIds && r.dedup[s] == {-1})
      && (forall s :: s in c.binding ==> s in r.binding && r.binding[s] == c.binding[s])
      && (forall s :: s in r.binding && s !in c.binding ==> s in slotIds && r.binding[s] == sessionId)
      && (forall q :: q in c.gate ==> q in r.gate && r.gate[q] == c.gate[q])
      && (forall q :: q in r.gate && q !in c.gate ==> q == sessionId && r.gate[q] == "0")
      && r.pending == c.pending && r.slotGenDone == c.slotGenDone
      && (WellFormed(c) ==> WellFormed(r))
  {
    var r := WarmupCacheSpec(c, slotIds, sessionId, today, locked, flash, epochOf).cache;
    if r != c {
      WarmSlotsOnlyCreates(c, slotIds, sessionId);
      var w := WarmSlotsSpec(c, slotIds, sessionId);
      assert r == FinishWarmup(w, slotIds, sessionId, today, flash, epochOf).cache;
      assert r.dedup == w.dedup && r.permits == w.permits && r.binding == w.binding;
    }
  }

  /** The session's done flag is raised only on a cache where the session is complete. */
  lemma WarmupDoneOnlyWhenComplete(c: CacheView, slotIds: seq<int>, sessionId: int, today: Date, locked: bool,
                                   flash: Option<TimeOfDay>, epochOf: (Date, TimeOfDay) -> int)
    ensures var r := WarmupCacheSpec(c, slotIds, sessionId, today, locked, flash, epochOf).cache;
      && (forall d :: d in r.sessionWarmDone && d !in c.sessionWarmDone ==> d == (today, sessionId) && SessionWarm(r, sessionId, slotIds))
      && (forall d :: d in c.sessionWarmDone ==> d in r.sessionWarmDone)
  {
    var r := WarmupCacheSpec(c, slotIds, sessionId, today, locked, flash, epochOf).cache;
    if r != c {
      WarmSlotsOnlyCreates(c, slotIds, sessionId);
    }
  }

  /** A warmup that holds the lock and knows the flash time completes the session and
      raises its done flag, unless some slot is already bound to another session. */
  lemma WarmupCompletes(c: CacheView, slotIds: seq<int>, sessionId: int, today: Date,
                        f: TimeOfDay, epochOf: (Date, TimeOfDay) -> int)
    requires |slotIds| > 0
    requires forall s :: s in slotIds && s in c.binding ==> c.binding[s] == sessionId
    ensures var o := WarmupCacheSpec(c, slotIds, sessionId, today, true, Some(f), epochOf);
      && o.result.Ok?
      && SessionWarm(o.cache, sessionId, slotIds)
      && (today, sessionId) in o.cache.sessionWarmDone
  {
    if !((today, sessionId) in c.sessionWarmDone && SessionWarm(c, sessionId, slotIds)) {
      WarmSlotsOnlyCreates(c, slotIds, sessionId);
      var w := WarmSlotsSpec(c, slotIds, sessionId);
      var g := if sessionId in w.gate then w else w.(gate := w.gate[sessionId := "0"]);
      var t := g.(gateTime := g.gateTime[sessionId := epochOf(today, f)]);
      forall k | 0 <= k < |slotIds|
        ensures SlotWarm(t, slotIds[k], sessionId)
      {
        assert slotIds[k] in slotIds;
      }
      assert SessionWarm(t, sessionId, slotIds);
    }
  }

  /** Running warmup a second time leaves the cache as the first run left it. */
  lemma WarmupIdempotent(c: CacheView, slotIds: seq<int>, sessionId: int, today: Date, locked: bool,
                         flash: Option<TimeOfDay>, epochOf: (Date, TimeOfDay) -> int)
    ensures var once := WarmupCacheSpec(c, slotIds, sessionId, today, locked, flash, epochOf).cache;
      WarmupCacheSpec(once, slotIds, sessionId, today, locked, flash, epochOf).cache == once
  {
    var c1 := WarmupCacheSpec(c, slotIds, sessionId, today, locked, flash, epochOf).cache;
    if c1 != c {
      WarmSlotsOnlyCreates(c, slotIds, sessionId);
      var w := WarmSlotsSpec(c, slotIds, sessionId);
      assert c1 == FinishWarmup(w, slotIds, sessionId, today, flash, epochOf).cache;
      assert forall s :: s in slotIds ==> s in c1.binding && s in c1.permits && s in c1.dedup && s in c1.slotWarm;
      WarmSlotsFixed(c1, slotIds, sessionId);
      FinishRepeat(w, c1, slotIds, sessionId, today, flash, epochOf);
    }
  }

  /** Finishing again on a finished cache changes nothing. */
  lemma FinishRepeat(w: CacheView, c1: CacheView, slotIds: seq<int>, sessionId: int, today: Date,
                     flash: Option<TimeOfDay>, epochOf: (Date, TimeOfDay) -> int)
    requires c1 == FinishWarmup(w, slotIds, sessionId, today, flash, epochOf).cache
    ensures FinishWarmup(c1, slotIds, sessionId, today, flash, epochOf).cache == c1
  {
    var g := ClosedGate(w, sessionId);
    match flash {
      case None =>
      case Some(f) =>
        var t := g.(gateTime := g.gateTime[sessionId := epochOf(today, f)]);
        assert c1.gateTime[sessionId := epochOf(today, f)] == c1.gateTime;
        if SessionWarm(t, sessionId, slotIds) {
          assert SessionWarm(c1, sessionId, slotIds);
          assert c1.sessionWarmDone + {(today, sessionId)} == c1.sessionWarmDone;
        }
    }
  }

  /** warmupSession: for a known session, slot generation for today first, then the
      cache side over today's live slots of the session; a failed generation ends it. */
  function WarmupSessionSpec(slots: seq<TimeSlot>, sessions: seq<FlashSession>, courts: seq<Court>, c: CacheView,
                             sessionId: int, today: Date, genLocked: bool, warmLocked: bool,
                             epochOf: (Date, TimeOfDay) -> int): Generation
    requires PositiveIntervals(sessions)
  {
    match SessionById(sessions, sessionId) {
      case None => Generation(Ok(()), slots, c)
      case Some(s) =>
        var g := GenerateSlotSpec(slots, sessions, courts, c, sessionId, today, genLocked);
        if g.result.Err? then g
        else
          var w := WarmupCacheSpec(g.cache, SessionSlotIds(g.slots, sessionId, today), sessionId, today,
                                   warmLocked, s.flashTime, epochOf);
          Generation(w.result, g.slots, w.cache)
    }
  }

  /** A whole warmupSession keeps every existing gate as it was and creates at most a
      closed gate for the session itself; it keeps the pending records, only adds done
      flags, and raises a session done flag only for this session on a complete cache. */
  lemma WarmupSessionOnlyCreates(slots: seq<TimeSlot>, sessions: seq<FlashSession>, courts: seq<Court>, c: CacheView,
                                 sessionId: int, today: Date, genLocked: bool, warmLocked: bool,
                                 epochOf: (Date, TimeOfDay) -> int)
    requires PositiveIntervals(sessions)
    ensures var r := WarmupSessionSpec(slots, sessions, courts, c, sessionId, today, genLocked, warmLocked, epochOf).cache;
      && (forall q :: q in c.gate ==> q in r.gate && r.gate[q] == c.gate[q])
      && (forall q :: q in r.gate && q !in c.gate ==> q == sessionId && r.gate[q] == "0")
      && r.pending == c.pending
      && c.sessionWarmDone <= r.sessionWarmDone
      && (forall d :: d in r.sessionWarmDone && d !in c.sessionWarmDone ==> d == (today, sessionId))
  {
    if SessionById(sessions, sessionId).Some? {
      var s := sessions[sessionId - 1];
      GenerateSlotGuarded(slots, sessions, courts, c, sessionId, today, genLocked);
      var g := GenerateSlotSpec(slots, sessions, courts, c, sessionId, today, genLocked);
      if g.result.Ok? {
        var ids := SessionSlotIds(g.slots, sessionId, today);
        WarmupOnlyCreates(g.cache, ids, sessionId, today, warmLocked, s.flashTime, epochOf);
        WarmupDoneOnlyWhenComplete(g.cache, ids, sessionId, today, warmLocked, s.flashTime, epochOf);
      }
    }
  }

  /** warmupSession on the store: slot generation for today first, then the cache side
      over today's live slots of the session. The lock attempts and the clock's
      conversion of today's flash time to an epoch second are inputs. */
  method WarmupSession(db: Db, cache: Cache, sessionId: int, today: Date, genLocked: bool, warmLocked: bool,
                       epochOf: (Date, TimeOfDay) -> int) returns (r: Result<()>)
    requires db.Valid()
    modifies db, cache
    ensures Generation(r, db.slots, cache.View())
         == WarmupSessionSpec(old(db.slots), old(db.sessions), old(db.courts), old(cache.View()), sessionId, today,
                              genLocked, warmLocked, epochOf)
    ensures db.reservations == old(db.reservations) && db.payOrders == old(db.payOrders)
    ensures db.courts == old(db.courts) && db.sessions == old(db.sessions)
  {
    var found := SessionById(db.sessions, sessionId);
    if found.None? {
      return Ok(());
    }
    var session := found.value;
    r := GenerateSlot(db, cache, sessionId, today, genLocked);
    if r.Err? {
      return;
    }
    var slotIds := SessionSlotIds(db.slots, sessionId, today);
    r := WarmupCache(cache, slotIds, sessionId, today, warmLocked, session.flashTime, epochOf);
  }

  /** The cache side of warmupSession, one slot at a time. */
  method WarmupCache(cache: Cache, slotIds: seq<int>, sessionId: int, today: Date, locked: bool,
                     flash: Option<TimeOfDay>, epochOf: (Date, TimeOfDay) -> int) returns (r: Result<()>)
    modifies cache
    ensures var w := WarmupCacheSpec(old(cache.View()), slotIds, sessionId, today, locked, flash, epochOf);
      r == w.result && cache.View() == w.cache
  {
    if |slotIds| == 0 {
      return Ok(());
    }
    var complete := IsSessionWarmupComplete(cache, sessionId, slotIds);
    if (today, sessionId) in cache.sessionWarmDone && complete {
      return Ok(());
    }
    if !locked {
      return Ok(());
    }
    WarmSlots(cache, slotIds, sessionId);
    r := FinishWarmupCache(cache, slotIds, sessionId, today, flash, epochOf);
  }

  /** The steps of warmupSession after the slot loop. */
  method FinishWarmupCache(cache: Cache, slotIds: seq<int>, sessionId: int, today: Date,
                           flash: Option<TimeOfDay>, epochOf: (Date, TimeOfDay) -> int) returns (r: Result<()>)
    modifies cache
    ensures Warmup(r, cache.View()) == FinishWarmup(old(cache.View()), slotIds, sessionId, today, flash, epochOf)
  {
    if sessionId !in cache.gate {
      cache.gate := cache.gate[sessionId := "0"];
    }
    if flash.None? {
      return Err(Unexpected);
    }
    cache.gateTime := cache.gateTime[sessionId := epochOf(today, flash.value)];
    var complete := IsSessionWarmupComplete(cache, sessionId, slotIds);
    if complete {
      cache.sessionWarmDone := cache.sessionWarmDone + {(today, sessionId)};
    }
    return Ok(());
  }

  /** The warmup loop over the slots. */
  method WarmSlots(cache: Cache, slotIds: seq<int>, sessionId: int)
    modifies cache
    ensures cache.View() == WarmSlotsSpec(old(cache.View()), slotIds, sessionId)
  {
    var i := 0;
    while i < |slotIds|
      invariant 0 <= i <= |slotIds|
      invariant cache.View() == WarmSlotsSpec(old(cache.View()), slotIds[..i], sessionId)
    {
      assert slotIds[..i + 1][..i] == slotIds[..i];
      WarmSlot(cache, slotIds[i], sessionId);
      i := i + 1;
    }
    assert slotIds[..i] == slotIds;
  }

  /** One pass of the warmup loop: a slot not yet fully warmed gets its binding, its
      permit, the dedup placeholder and the warmed mark. */
  method WarmSlot(cache: Cache, slotId: int, sessionId: int)
    modifies cache
    ensures cache.View() == WarmSlotSpec(old(cache.View()), slotId, sessionId)
  {
    var complete := IsSlotWarmupComplete(cache, slotId, sessionId);
    if !(slotId in cache.slotWarm && complete) {
      if slotId !in cache.binding {
        cache.binding := cache.binding[slotId := sessionId];
      }
      var _ := cache.TrySetPermits(slotId, 1);
      if slotId !in cache.dedup {
        var _ := cache.AddMember(slotId, -1);
        assert {} + {-1} == {-1};
      }
      cache.slotWarm := cache.slotWarm + {slotId};
    }
  }

  // ---------------------------------------------------------------------------------
  // openSession

  /** openSession: a missing session is a parameter error; otherwise warmup runs and, if
      it completes normally, the gate is opened whatever the warmup achieved. */
  function OpenSessionSpec(slots: seq<TimeSlot>, sessions: seq<FlashSession>, courts: seq<Court>, c: CacheView,
                           sessionId: int, today: Date, genLocked: bool, warmLocked: bool,
                           epochOf: (Date, TimeOfDay) -> int): Generation
    requires PositiveIntervals(sessions)
  {
    if SessionById(sessions, sessionId).None? then Generation(Err(ParamError), slots, c)
    else
      var g := WarmupSessionSpec(slots, sessions, courts, c, sessionId, today, genLocked, warmLocked, epochOf);
      if g.result.Err? then g
      else g.(cache := g.cache.(gate := g.cache.gate[sessionId := "1"]))
  }

  /** openSession refuses an unknown session and changes nothing; when it succeeds the
      session's gate is open, every other gate is as before or newly created closed,
      the pending records are untouched and the slots are those warmup left; a failing
      warmup is passed on with its state and leaves the gate as warmup did. */
  lemma OpenSessionOpensGate(slots: seq<TimeSlot>, sessions: seq<FlashSession>, courts: seq<Court>, c: CacheView,
                             sessionId: int, today: Date, genLocked: bool, warmLocked: bool,
                             epochOf: (Date, TimeOfDay) -> int)
    requires PositiveIntervals(sessions)
    ensures var o := OpenSessionSpec(slots, sessions, courts, c, sessionId, today, genLocked, warmLocked, epochOf);
      SessionById(sessions, sessionId).None? ==> o == Generation(Err(ParamError), slots, c)
    ensures var o := OpenSessionSpec(slots, sessions, courts, c, sessionId, today, genLocked, warmLocked, epochOf);
      var w := WarmupSessionSpec(slots, sessions, courts, c, sessionId, today, genLocked, warmLocked, epochOf);
      SessionById(sessions, sessionId).Some? ==>
        && o.result == w.result && o.slots == w.slots
        && (w.result.Err? ==> o.cache == w.cache)
        && (w.result.Ok? ==> o.cache.pending == w.cache.pending && o.cache.dedup == w.cache.dedup
                             && o.cache.permits == w.cache.permits)
    ensures var o := OpenSessionSpec(slots, sessions, courts, c, sessionId, today, genLocked, warmLocked, epochOf);
      o.result.Ok? ==>
        && sessionId in o.cache.gate && o.cache.gate[sessionId] == "1"
        && o.cache.pending == c.pending
        && (forall q :: q in c.gate && q != sessionId ==> q in o.cache.gate && o.cache.gate[q] == c.gate[q])
        && (forall q :: q in o.cache.gate && q != sessionId ==> q in c.gate)
  {
    if SessionById(sessions, sessionId).Some? {
      WarmupSessionOnlyCreates(slots, sessions, courts, c, sessionId, today, genLocked, warmLocked, epochOf);
    }
  }

  method OpenSession(db: Db, cache: Cache, sessionId: int, today: Date, genLocked: bool, warmLocked: bool,
                     epochOf: (Date, TimeOfDay) -> int) returns (r: Result<()>)
    requires db.Valid()
    modifies db, cache
    ensures Generation(r, db.slots, cache.View())
         == OpenSessionSpec(old(db.slots), old(db.sessions), old(db.courts), old(cache.View()), sessionId, today,
                            genLocked, warmLocked, epochOf)
    ensures SessionById(old(db.sessions), sessionId).None? ==>
      r == Err(ParamError) && cache.View() == old(cache.View()) && db.slots == old(db.slots)
    ensures r.Ok? ==> sessionId in cache.gate && cache.gate[sessionId] == "1"
    ensures r.Ok? ==> cache.pending == old(cache.pending)
    ensures db.reservations == old(db.reservations) && db.payOrders == old(db.payOrders)
    ensures db.courts == old(db.courts) && db.sessions == old(db.sessions)
  {
    if SessionById(db.sessions, sessionId).None? {
      return Err(ParamError);
    }
    ghost var before := cache.View();
    r := WarmupSession(db, cache, sessionId, today, genLocked, warmLocked, epochOf);
    if r.Err? {
      return;
    }
    WarmupSessionOnlyCreates(old(db.slots), old(db.sessions), old(db.courts), before, sessionId, today,
                             genLocked, warmLocked, epochOf);
    cache.gate := cache.gate[sessionId := "1"];
  }

  // ---------------------------------------------------------------------------------
  // Regeneration after a court-count change

  /** Deleting the cache state of one slot: binding, semaphore, dedup set, warm flag. */
  function CleanupOne(c: CacheView, slotId: int): CacheView {
    c.(binding := c.binding - {slotId}, permits := c.permits - {slotId},
       dedup := c.dedup - {slotId}, slotWarm := c.slotWarm - {slotId})
  }

  /** cleanupReserveRedisBySlots: the loop over the listed slots. */
  function CleanupSpec(c: CacheView, slotIds: seq<int>): CacheView {
    if |slotIds| == 0 then c
    else CleanupOne(CleanupSpec(c, slotIds[..|slotIds| - 1]), slotIds[|slotIds| - 1])
  }

  /** The cleanup deletes the four keys of every listed slot and touches nothing else. */
  lemma {:induction false} CleanupClearsExactly(c: CacheView, slotIds: seq<int>)
    ensures var r := CleanupSpec(c, slotIds);
      && (forall s :: s in slotIds ==> s !in r.binding && s !in r.permits && s !in r.dedup && s !in r.slotWarm)
      && (forall s :: s !in slotIds ==>
            && (s in r.binding <==> s in c.binding) && (s in r.binding ==> r.binding[s] == c.binding[s])
            && (s in r.permits <==> s in c.permits) && (s in r.permits ==> r.permits[s] == c.permits[s])
            && (s in r.dedup <==> s in c.dedup) && (s in r.dedup ==> r.dedup[s] == c.dedup[s])
            && (s in r.slotWarm <==> s in c.slotWarm))
      && r.gate == c.gate && r.gateTime == c.gateTime && r.pending == c.pending
      && r.sessionWarmDone == c.sessionWarmDone && r.slotGenDone == c.slotGenDone
      && (WellFormed(c) ==> WellFormed(r))
  {
    if |slotIds| > 0 {
      var front := slotIds[..|slotIds| - 1];
      var last := slotIds[|slotIds| - 1];
      CleanupClearsExactly(c, front);
      forall s | s in slotIds
        ensures s in front || s == last
      {
        var k :| 0 <= k < |slotIds| && slotIds[k] == s;
        if k < |front| {
          assert front[k] == s;
        }
      }
      forall s | s in front
        ensures s in slotIds
      {
        var k :| 0 <= k < |front| && front[k] == s;
        assert slotIds[k] == s;
      }
      assert last in slotIds;
    }
  }

  method CleanupReserveRedisBySlots(cache: Cache, slotIds: seq<int>)
    modifies cache
    ensures cache.View() == CleanupSpec(old(cache.View()), slotIds)
  {
    var i := 0;
    while i < |slotIds|
      invariant 0 <= i <= |slotIds|
      invariant cache.View() == CleanupSpec(old(cache.View()), slotIds[..i])
    {
      assert slotIds[..i + 1][..i] == slotIds[..i];
      var slotId := slotIds[i];
      cache.binding := cache.binding - {slotId};
      cache.permits := cache.permits - {slotId};
      cache.dedup := cache.dedup - {slotId};
      cache.slotWarm := cache.slotWarm - {slotId};
      i := i + 1;
    }
    assert slotIds[..i] == slotIds;
  }

  /** What regenerateTodaySlotsForSession leaves. */
  datatype Regeneration = Regeneration(result: Result<()>, slots: seq<TimeSlot>, cache: CacheView)

  /** regenerateTodaySlotsForSession: without the lock nothing happens; otherwise the
      day's slots of the session are retired, their cache state cleaned, the session's
      generation and warmup flags, gate and gate time deleted, the slots generated anew
      and the generation flag set again. A failing generation leaves the flag unset. */
  function RegenerateSpec(slots: seq<TimeSlot>, sessions: seq<FlashSession>, courts: seq<Court>, c: CacheView,
                          day: Date, sessionId: int, locked: bool): Regeneration
    requires PositiveIntervals(sessions)
  {
    if !locked then Regeneration(Ok(()), slots, c)
    else
      var stale := SessionSlotIds(slots, sessionId, day);
      var retired := Retire(slots, sessionId, day);
      var reset := ResetSpec(c, stale, day, sessionId);
      match GenerateSpec(retired, sessions, courts, day, sessionId) {
        case Err(e) => Regeneration(Err(e), retired, reset)
        case Ok(generated) => Regeneration(Ok(()), generated, reset.(slotGenDone := reset.slotGenDone + {(day, sessionId)}))
      }
  }

  /** The cache side of a regeneration before the new slots exist: cleanup of the
      retired slots, then the session's flags, gate and gate time deleted. */
  function ResetSpec(c: CacheView, stale: seq<int>, day: Date, sessionId: int): CacheView {
    var cleaned := CleanupSpec(c, stale);
    cleaned.(slotGenDone := cleaned.slotGenDone - {(day, sessionId)},
             sessionWarmDone := cleaned.sessionWarmDone - {(day, sessionId)},
             gate := cleaned.gate - {sessionId},
             gateTime := cleaned.gateTime - {sessionId})
  }

  method ResetSessionCache(cache: Cache, stale: seq<int>, day: Date, sessionId: int)
    modifies cache
    ensures cache.View() == ResetSpec(old(cache.View()), stale, day, sessionId)
  {
    CleanupReserveRedisBySlots(cache, stale);
    cache.slotGenDone := cache.slotGenDone - {(day, sessionId)};
    cache.sessionWarmDone := cache.sessionWarmDone - {(day, sessionId)};
    cache.gate := cache.gate - {sessionId};
    cache.gateTime := cache.gateTime - {sessionId};
  }

  /** After a regeneration holding the lock, the session's slots for the day are exactly
      a fresh batch on the current courts, none of the retired slots keeps cache state,
      and the session is closed and no longer flagged warm, so the next warmup starts
      afresh. */
  lemma RegenerateStartsAfresh(slots: seq<TimeSlot>, sessions: seq<FlashSession>, courts: seq<Court>, c: CacheView,
                               day: Date, sessionId: int)
    requires PositiveIntervals(sessions)
    requires IsId(sessions, sessionId)
    requires var s := sessions[sessionId - 1]; Span(s) % s.slotInterval == 0
    ensures var s := sessions[sessionId - 1];
      var r := RegenerateSpec(slots, sessions, courts, c, day, sessionId, true);
      && r.result.Ok?
      && |r.slots| >= |slots|
      && r.slots[|slots|..] == Batch(day, sessionId, s, ActiveCourtIds(courts))
      && (forall i :: 0 <= i < |slots| ==> !OfSessionOn(r.slots[i], sessionId, day))
      && (forall k :: 0 <= k < |SessionSlotIds(slots, sessionId, day)| ==>
            var id := SessionSlotIds(slots, sessionId, day)[k];
            id !in r.cache.binding && id !in r.cache.permits && id !in r.cache.dedup && id !in r.cache.slotWarm)
      && sessionId !in r.cache.gate && sessionId !in r.cache.gateTime
      && (day, sessionId) !in r.cache.sessionWarmDone && (day, sessionId) in r.cache.slotGenDone
  {
    RetireThenGenerate(slots, sessions, courts, sessionId, day);
    var ids := SessionSlotIds(slots, sessionId, day);
    CleanupClearsExactly(c, ids);
    forall k | 0 <= k < |ids|
      ensures ids[k] in ids
    {
    }
  }

  method RegenerateTodaySlotsForSession(db: Db, cache: Cache, day: Date, sessionId: int, locked: bool) returns (r: Result<()>)
    requires db.Valid()
    modifies db, cache
    ensures var g := RegenerateSpec(old(db.slots), old(db.sessions), old(db.courts), old(cache.View()), day, sessionId, locked);
      r == g.result && db.slots == g.slots && cache.View() == g.cache
    ensures db.reservations == old(db.reservations) && db.payOrders == old(db.payOrders)
    ensures db.courts == old(db.courts) && db.sessions == old(db.sessions)
  {
    if !locked {
      return Ok(());
    }
    var stale := SessionSlotIds(db.slots, sessionId, day);
    db.slots := Retire(db.slots, sessionId, day);
    ResetSessionCache(cache, stale, day, sessionId);
    ghost var spec := GenerateSpec(db.slots, db.sessions, db.courts, day, sessionId);
    r := GenerateForDate(db, day, sessionId);
    if r.Err? {
      assert spec.Err?;
      return;
    }
    assert spec == Ok(db.slots);
    cache.slotGenDone := cache.slotGenDone + {(day, sessionId)};
    r := Ok(());
  }
}
