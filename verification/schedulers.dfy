/** The minute-by-minute jobs: warming sessions ahead of their flash time, opening the
    gates of sessions whose flash time has come, reaping reservations left unpaid, and
    the daily slot generation. Each job reads its clock once; the lock attempts made
    inside the services it calls are inputs, one per session. A failure of the service
    for one session ends the job's pass, as the exception leaves the loop. */
module Schedulers {
  import opened Common
  import opened Tables
  import opened CacheStore
  import opened AdminWarmup
  import ReserveService

  // ---------------------------------------------------------------------------------
  // WarmupScheduler.warmupNearFutureSlots

  /** The window of warmupNearFutureSlots: a flash time between the current minute and
      the current minute plus the warmup minutes, the upper bound computed by
      LocalTime.plusMinutes and so taken modulo one day. */
  predicate InWarmupWindow(s: FlashSession, now: TimeOfDay, minutes: int) {
    s.flashTime.Some? && now <= s.flashTime.value <= PlusMinutes(now, minutes)
  }

  function WarmupTargets(sessions: seq<FlashSession>, now: TimeOfDay, minutes: int): (ix: seq<nat>)
    ensures forall k :: 0 <= k < |ix| ==> ix[k] < |sessions| && InWarmupWindow(sessions[ix[k]], now, minutes)
    ensures forall i :: 0 <= i < |sessions| && InWarmupWindow(sessions[i], now, minutes) ==> i in ix
    ensures forall k, l :: 0 <= k < l < |ix| ==> ix[k] < ix[l]
  {
    Indices(sessions, s => InWarmupWindow(s, now, minutes))
  }

  /** Away from midnight the window is the closed interval of minutes it reads as; when
      the upper bound wraps past midnight the window is empty. */
  lemma WarmupWindowBounds(s: FlashSession, now: TimeOfDay, minutes: int)
    requires 0 <= minutes < MinutesPerDay
    ensures now + minutes < MinutesPerDay ==>
      (InWarmupWindow(s, now, minutes) <==> s.flashTime.Some? && now <= s.flashTime.value <= now + minutes)
    ensures now + minutes >= MinutesPerDay ==> !InWarmupWindow(s, now, minutes)
  {
    if now + minutes >= MinutesPerDay {
      assert PlusMinutes(now, minutes) == now + minutes - MinutesPerDay;
    }
  }

  /** warmupSession over the selected sessions, in table order, until one fails. */
  function WarmSessions(slots: seq<TimeSlot>, sessions: seq<FlashSession>, courts: seq<Court>, c: CacheView,
                        ix: seq<nat>, today: Date, genLocked: int -> bool, warmLocked: int -> bool,
                        epochOf: (Date, TimeOfDay) -> int): Generation
    requires PositiveIntervals(sessions)
    decreases |ix|
  {
    if |ix| == 0 then Generation(Ok(()), slots, c)
    else
      var id := ix[0] + 1;
      var g := WarmupSessionSpec(slots, sessions, courts, c, id, today, genLocked(id), warmLocked(id), epochOf);
      if g.result.Err? then g
      else WarmSessions(g.slots, sessions, courts, g.cache, ix[1..], today, genLocked, warmLocked, epochOf)
  }

  /** The first step of the warmup loop from position i, taken apart. */
  lemma WarmSessionsUnfold(slots: seq<TimeSlot>, sessions: seq<FlashSession>, courts: seq<Court>, c: CacheView,
                           ix: seq<nat>, i: nat, g: Generation, today: Date, genLocked: int -> bool,
                           warmLocked: int -> bool, epochOf: (Date, TimeOfDay) -> int)
    requires PositiveIntervals(sessions) && i < |ix|
    requires g == WarmupSessionSpec(slots, sessions, courts, c, ix[i] + 1, today, genLocked(ix[i] + 1), warmLocked(ix[i] + 1), epochOf)
    ensures WarmSessions(slots, sessions, courts, c, ix[i..], today, genLocked, warmLocked, epochOf)
         == if g.result.Err? then g
            else WarmSessions(g.slots, sessions, courts, g.cache, ix[i + 1..], today, genLocked, warmLocked, epochOf)
  {
    assert ix[i..][0] == ix[i] && ix[i..][1..] == ix[i + 1..];
  }

  /** The warmup job never opens a gate: every existing gate keeps its value, every gate
      it creates is closed, and the pending records are untouched. */
  lemma {:induction false} WarmSessionsNeverOpen(slots: seq<TimeSlot>, sessions: seq<FlashSession>, courts: seq<Court>,
                                                 c: CacheView, ix: seq<nat>, today: Date, genLocked: int -> bool,
                                                 warmLocked: int -> bool, epochOf: (Date, TimeOfDay) -> int)
    requires PositiveIntervals(sessions)
    decreases |ix|
    ensures GatesOnlyAdded(c, WarmSessions(slots, sessions, courts, c, ix, today, genLocked, warmLocked, epochOf).cache)
  {
    if |ix| > 0 {
      var g := WarmSessionsFirst(slots, sessions, courts, c, ix, today, genLocked, warmLocked, epochOf);
      if g.result.Ok? {
        WarmSessionsNeverOpen(g.slots, sessions, courts, g.cache, ix[1..], today, genLocked, warmLocked, epochOf);
      }
      var rest := WarmSessions(g.slots, sessions, courts, g.cache, ix[1..], today, genLocked, warmLocked, epochOf).cache;
      GatesOnlyAddedStep(c, g, rest);
    }
  }

  /** The first step of the warmup loop, as a generation g that only adds closed gates,
      followed on success by the rest of the loop from g. */
  lemma WarmSessionsFirst(slots: seq<TimeSlot>, sessions: seq<FlashSession>, courts: seq<Court>, c: CacheView,
                          ix: seq<nat>, today: Date, genLocked: int -> bool, warmLocked: int -> bool,
                          epochOf: (Date, TimeOfDay) -> int) returns (g: Generation)
    requires PositiveIntervals(sessions) && |ix| > 0
    ensures GatesOnlyAdded(c, g.cache)
    ensures WarmSessions(slots, sessions, courts, c, ix, today, genLocked, warmLocked, epochOf)
         == if g.result.Err? then g
            else WarmSessions(g.slots, sessions, courts, g.cache, ix[1..], today, genLocked, warmLocked, epochOf)
  {
    var id := ix[0] + 1;
    g := WarmupSessionSpec(slots, sessions, courts, c, id, today, genLocked(id), warmLocked(id), epochOf);
    WarmStepOnlyAdds(slots, sessions, courts, c, id, today, genLocked(id), warmLocked(id), epochOf);
    WarmSessionsHead(slots, sessions, courts, c, ix, g, today, genLocked, warmLocked, epochOf);
  }

  /** The warmup loop is its first step followed, on success, by the rest of the loop. */
  lemma WarmSessionsHead(slots: seq<TimeSlot>, sessions: seq<FlashSession>, courts: seq<Court>, c: CacheView,
                         ix: seq<nat>, g: Generation, today: Date, genLocked: int -> bool,
                         warmLocked: int -> bool, epochOf: (Date, TimeOfDay) -> int)
    requires PositiveIntervals(sessions) && |ix| > 0
    requires g == WarmupSessionSpec(slots, sessions, courts, c, ix[0] + 1, today, genLocked(ix[0] + 1), warmLocked(ix[0] + 1), epochOf)
    ensures WarmSessions(slots, sessions, courts, c, ix, today, genLocked, warmLocked, epochOf)
         == if g.result.Err? then g
            else WarmSessions(g.slots, sessions, courts, g.cache, ix[1..], today, genLocked, warmLocked, epochOf)
  {
  }

  /** Chaining one warmup step with the rest of the loop, which runs only when the step succeeded. */
  lemma GatesOnlyAddedStep(c: CacheView, g: Generation, rest: CacheView)
    requires GatesOnlyAdded(c, g.cache)
    requires g.result.Ok? ==> GatesOnlyAdded(g.cache, rest)
    ensures GatesOnlyAdded(c, if g.result.Err? then g.cache else rest)
  {
    if g.result.Ok? {
      GatesOnlyAddedTrans(c, g.cache, rest);
    }
  }

  /** From c to r no gate changed its value, every gate added is closed, and the pending
      records are the same. */
  predicate GatesOnlyAdded(c: CacheView, r: CacheView) {
    && (forall q :: q in c.gate ==> q in r.gate && r.gate[q] == c.gate[q])
    && (forall q :: q in r.gate && q !in c.gate ==> r.gate[q] == "0")
    && r.pending == c.pending
  }

  lemma GatesOnlyAddedTrans(a: CacheView, b: CacheView, c: CacheView)
    requires GatesOnlyAdded(a, b) && GatesOnlyAdded(b, c)
    ensures GatesOnlyAdded(a, c)
  {
  }

  /** One warmupSession call only adds closed gates. */
  lemma WarmStepOnlyAdds(slots: seq<TimeSlot>, sessions: seq<FlashSession>, courts: seq<Court>, c: CacheView,
                         id: int, today: Date, genLocked: bool, warmLocked: bool, epochOf: (Date, TimeOfDay) -> int)
    requires PositiveIntervals(sessions)
    ensures GatesOnlyAdded(c, WarmupSessionSpec(slots, sessions, courts, c, id, today, genLocked, warmLocked, epochOf).cache)
  {
    WarmupSessionOnlyCreates(slots, sessions, courts, c, id, today, genLocked, warmLocked, epochOf);
  }

  /** warmupNearFutureSlots: the current minute is the clock truncated to its minute. */
  method WarmupNearFutureSlots(db: Db, cache: Cache, minutes: int, clock: SecondOfDay, today: Date,
                               genLocked: int -> bool, warmLocked: int -> bool,
                               epochOf: (Date, TimeOfDay) -> int) returns (r: Result<()>)
    requires db.Valid()
    modifies db, cache
    ensures db.sessions == old(db.sessions) && db.Valid()
    ensures Generation(r, db.slots, cache.View())
         == WarmSessions(old(db.slots), db.sessions, db.courts, old(cache.View()),
                         WarmupTargets(db.sessions, TruncateToMinute(clock), minutes), today, genLocked, warmLocked, epochOf)
    ensures db.reservations == old(db.reservations) && db.payOrders == old(db.payOrders)
    ensures db.courts == old(db.courts)
  {
    var now := TruncateToMinute(clock);
    var ix := WarmupTargets(db.sessions, now, minutes);
    r := WarmAll(db, cache, ix, today, genLocked, warmLocked, epochOf);
  }

  /** warmupNearFutureSlots' loop over the selected sessions. */
  method WarmAll(db: Db, cache: Cache, ix: seq<nat>, today: Date,
                 genLocked: int -> bool, warmLocked: int -> bool,
                 epochOf: (Date, TimeOfDay) -> int) returns (r: Result<()>)
    requires db.Valid()
    modifies db, cache
    ensures db.sessions == old(db.sessions) && db.Valid()
    ensures Generation(r, db.slots, cache.View())
         == WarmSessions(old(db.slots), db.sessions, db.courts, old(cache.View()), ix, today, genLocked, warmLocked, epochOf)
    ensures db.reservations == old(db.reservations) && db.payOrders == old(db.payOrders)
    ensures db.courts == old(db.courts)
  {
    ghost var goal := WarmSessions(db.slots, db.sessions, db.courts, cache.View(), ix, today, genLocked, warmLocked, epochOf);
    var i := 0;
    while i < |ix|
      invariant 0 <= i <= |ix|
      invariant db.Valid()
      invariant db.reservations == old(db.reservations) && db.payOrders == old(db.payOrders)
      invariant db.courts == old(db.courts) && db.sessions == old(db.sessions)
      invariant WarmSessions(db.slots, db.sessions, db.courts, cache.View(), ix[i..], today, genLocked, warmLocked, epochOf) == goal
    {
      ghost var slots0, c0 := db.slots, cache.View();
      r := WarmupSession(db, cache, ix[i] + 1, today, genLocked(ix[i] + 1), warmLocked(ix[i] + 1), epochOf);
      WarmSessionsUnfold(slots0, db.sessions, db.courts, c0, ix, i, Generation(r, db.slots, cache.View()),
                         today, genLocked, warmLocked, epochOf);
      if r.Err? {
        return;
      }
      i := i + 1;
    }
    r := Ok(());
  }

  // ---------------------------------------------------------------------------------
  // WarmupScheduler.openGate

  /** The sessions openGate considers: those whose flash time is not after the clock. */
  predicate FlashReached(s: FlashSession, clock: SecondOfDay) {
    s.flashTime.Some? && !ClockBefore(clock, s.flashTime.value)
  }

  function GateTargets(sessions: seq<FlashSession>, clock: SecondOfDay): (ix: seq<nat>)
    ensures forall k :: 0 <= k < |ix| ==> ix[k] < |sessions| && FlashReached(sessions[ix[k]], clock)
    ensures forall i :: 0 <= i < |sessions| && FlashReached(sessions[i], clock) ==> i in ix
    ensures forall k, l :: 0 <= k < l < |ix| ==> ix[k] < ix[l]
  {
    Indices(sessions, s => FlashReached(s, clock))
  }

  /** openGate for one session: an open gate is skipped without a warmup; otherwise the
      session is warmed and its gate opened when today's done flag exists. */
  function GateStep(slots: seq<TimeSlot>, sessions: seq<FlashSession>, courts: seq<Court>, c: CacheView,
                    id: int, today: Date, genLocked: bool, warmLocked: bool,
                    epochOf: (Date, TimeOfDay) -> int): Generation
    requires PositiveIntervals(sessions)
  {
    if GateOpen(c, id) then Generation(Ok(()), slots, c)
    else
      var g := WarmupSessionSpec(slots, sessions, courts, c, id, today, genLocked, warmLocked, epochOf);
      if g.result.Err? then g
      else if (today, id) in g.cache.sessionWarmDone then g.(cache := g.cache.(gate := g.cache.gate[id := "1"]))
      else g
  }

  /** openGate over the selected sessions, in table order, until one fails. */
  function OpenGates(slots: seq<TimeSlot>, sessions: seq<FlashSession>, courts: seq<Court>, c: CacheView,
                     ix: seq<nat>, today: Date, genLocked: int -> bool, warmLocked: int -> bool,
                     epochOf: (Date, TimeOfDay) -> int): Generation
    requires PositiveIntervals(sessions)
    decreases |ix|
  {
    if |ix| == 0 then Generation(Ok(()), slots, c)
    else
      var id := ix[0] + 1;
      var g := GateStep(slots, sessions, courts, c, id, today, genLocked(id), warmLocked(id), epochOf);
      if g.result.Err? then g
      else OpenGates(g.slots, sessions, courts, g.cache, ix[1..], today, genLocked, warmLocked, epochOf)
  }

  /** The first step of openGate's loop from position i, taken apart. */
  lemma OpenGatesUnfold(slots: seq<TimeSlot>, sessions: seq<FlashSession>, courts: seq<Court>, c: CacheView,
                        ix: seq<nat>, i: nat, g: Generation, today: Date, genLocked: int -> bool,
                        warmLocked: int -> bool, epochOf: (Date, TimeOfDay) -> int)
    requires PositiveIntervals(sessions) && i < |ix|
    requires g == GateStep(slots, sessions, courts, c, ix[i] + 1, today, genLocked(ix[i] + 1), warmLocked(ix[i] + 1), epochOf)
    ensures OpenGates(slots, sessions, courts, c, ix[i..], today, genLocked, warmLocked, epochOf)
         == if g.result.Err? then g
            else OpenGates(g.slots, sessions, courts, g.cache, ix[i + 1..], today, genLocked, warmLocked, epochOf)
  {
    assert ix[i..][0] == ix[i] && ix[i..][1..] == ix[i + 1..];
    OpenGatesHead(slots, sessions, courts, c, ix[i..], g, today, genLocked, warmLocked, epochOf);
  }

  /** The first step of openGate's loop, taken apart. */
  lemma OpenGatesHead(slots: seq<TimeSlot>, sessions: seq<FlashSession>, courts: seq<Court>, c: CacheView,
                      ix: seq<nat>, g: Generation, today: Date, genLocked: int -> bool,
                      warmLocked: int -> bool, epochOf: (Date, TimeOfDay) -> int)
    requires PositiveIntervals(sessions) && |ix| > 0
    requires g == GateStep(slots, sessions, courts, c, ix[0] + 1, today, genLocked(ix[0] + 1), warmLocked(ix[0] + 1), epochOf)
    ensures OpenGates(slots, sessions, courts, c, ix, today, genLocked, warmLocked, epochOf)
         == if g.result.Err? then g
            else OpenGates(g.slots, sessions, courts, g.cache, ix[1..], today, genLocked, warmLocked, epochOf)
  {
  }

  /** A non-empty sequence is its head followed by its tail. */
  lemma SplitHead(ix: seq<nat>)
    requires |ix| > 0
    ensures [ix[0]] + ix[1..] == ix
  {
  }

  /** One step of openGate never closes a gate and opens at most the session's own,
      only when today's done flag for it exists. */
  lemma GateStepOnlyOpensWarmed(slots: seq<TimeSlot>, sessions: seq<FlashSession>, courts: seq<Court>, c: CacheView,
                                id: int, today: Date, genLocked: bool, warmLocked: bool,
                                epochOf: (Date, TimeOfDay) -> int)
    requires PositiveIntervals(sessions)
    ensures var r := GateStep(slots, sessions, courts, c, id, today, genLocked, warmLocked, epochOf).cache;
      && (forall q :: q in c.gate ==> q in r.gate && (r.gate[q] == c.gate[q] || r.gate[q] == "1"))
      && (forall q :: q in r.gate && q !in c.gate ==> r.gate[q] == "0" || r.gate[q] == "1")
      && (forall q :: GateOpen(r, q) && !GateOpen(c, q) ==> q == id && (today, q) in r.sessionWarmDone)
      && c.sessionWarmDone <= r.sessionWarmDone
      && r.pending == c.pending
  {
    WarmupSessionOnlyCreates(slots, sessions, courts, c, id, today, genLocked, warmLocked, epochOf);
  }

  /** openGate never closes a gate: an existing gate keeps its value or becomes open. A
      gate it opens belongs to a selected session whose done flag for today exists; the
      done flags only grow and the pending records are untouched. */
  lemma {:induction false} OpenGatesOnlyOpenWarmed(slots: seq<TimeSlot>, sessions: seq<FlashSession>, courts: seq<Court>,
                                                   c: CacheView, ix: seq<nat>, today: Date, genLocked: int -> bool,
                                                   warmLocked: int -> bool, epochOf: (Date, TimeOfDay) -> int)
    requires PositiveIntervals(sessions)
    decreases |ix|
    ensures OnlyOpensWarmed(c, OpenGates(slots, sessions, courts, c, ix, today, genLocked, warmLocked, epochOf).cache, today, ix)
  {
    if |ix| > 0 {
      var g := OpenGatesFirst(slots, sessions, courts, c, ix, today, genLocked, warmLocked, epochOf);
      if g.result.Ok? {
        OpenGatesOnlyOpenWarmed(g.slots, sessions, courts, g.cache, ix[1..], today, genLocked, warmLocked, epochOf);
      }
      var rest := OpenGates(g.slots, sessions, courts, g.cache, ix[1..], today, genLocked, warmLocked, epochOf).cache;
      OnlyOpensWarmedStep(c, g, rest, today, ix);
    }
  }

  /** The first step of openGate's loop, as a generation g that opens at most its own
      gate, followed on success by the rest of the loop from g. The first postcondition is
      written as one equation so that it is proved as a whole rather than clause by clause. */
  lemma OpenGatesFirst(slots: seq<TimeSlot>, sessions: seq<FlashSession>, courts: seq<Court>, c: CacheView,
                       ix: seq<nat>, today: Date, genLocked: int -> bool, warmLocked: int -> bool,
                       epochOf: (Date, TimeOfDay) -> int) returns (g: Generation)
    requires PositiveIntervals(sessions) && |ix| > 0
    ensures OnlyOpensWarmed(c, g.cache, today, [ix[0]]) == true
    ensures OpenGates(slots, sessions, courts, c, ix, today, genLocked, warmLocked, epochOf)
         == if g.result.Err? then g
            else OpenGates(g.slots, sessions, courts, g.cache, ix[1..], today, genLocked, warmLocked, epochOf)
  {
    var id := ix[0] + 1;
    g := GateStep(slots, sessions, courts, c, id, today, genLocked(id), warmLocked(id), epochOf);
    GateStepOpensOnlyItself(slots, sessions, courts, c, ix[0], today, genLocked(id), warmLocked(id), epochOf);
    OpenGatesHead(slots, sessions, courts, c, ix, g, today, genLocked, warmLocked, epochOf);
  }

  /** Chaining the first step of openGate with the rest of its loop. */
  lemma OnlyOpensWarmedStep(c: CacheView, g: Generation, rest: CacheView, today: Date, ix: seq<nat>)
    requires |ix| > 0 && OnlyOpensWarmed(c, g.cache, today, [ix[0]])
    requires g.result.Ok? ==> OnlyOpensWarmed(g.cache, rest, today, ix[1..])
    ensures OnlyOpensWarmed(c, if g.result.Err? then g.cache else rest, today, ix)
  {
    SplitHead(ix);
    if g.result.Ok? {
      OnlyOpensWarmedTrans(c, g.cache, rest, today, [ix[0]], ix[1..]);
    } else {
      OnlyOpensWarmedTrans(c, g.cache, g.cache, today, [ix[0]], ix[1..]);
    }
  }

  /** The step of openGate for the session at position x opens at most that session. */
  lemma GateStepOpensOnlyItself(slots: seq<TimeSlot>, sessions: seq<FlashSession>, courts: seq<Court>, c: CacheView,
                                x: nat, today: Date, genLocked: bool, warmLocked: bool,
                                epochOf: (Date, TimeOfDay) -> int)
    requires PositiveIntervals(sessions)
    ensures OnlyOpensWarmed(c, GateStep(slots, sessions, courts, c, x + 1, today, genLocked, warmLocked, epochOf).cache, today, [x])
  {
    GateStepOnlyOpensWarmed(slots, sessions, courts, c, x + 1, today, genLocked, warmLocked, epochOf);
  }

  /** When every selected gate is already open, openGate warms nothing and changes
      nothing. */
  lemma {:induction false} OpenGatesSkipOpen(slots: seq<TimeSlot>, sessions: seq<FlashSession>, courts: seq<Court>,
                                             c: CacheView, ix: seq<nat>, today: Date, genLocked: int -> bool,
                                             warmLocked: int -> bool, epochOf: (Date, TimeOfDay) -> int)
    requires PositiveIntervals(sessions)
    requires forall k :: 0 <= k < |ix| ==> GateOpen(c, ix[k] + 1)
    decreases |ix|
    ensures OpenGates(slots, sessions, courts, c, ix, today, genLocked, warmLocked, epochOf) == Generation(Ok(()), slots, c)
  {
    if |ix| > 0 {
      assert GateOpen(c, ix[0] + 1);
      OpenGatesSkipOpen(slots, sessions, courts, c, ix[1..], today, genLocked, warmLocked, epochOf);
    }
  }

  /** The body of openGate's loop for one session. */
  method OpenOne(db: Db, cache: Cache, id: int, today: Date, genLocked: bool, warmLocked: bool,
                 epochOf: (Date, TimeOfDay) -> int) returns (r: Result<()>)
    requires db.Valid()
    modifies db, cache
    ensures db.sessions == old(db.sessions) && db.Valid()
    ensures Generation(r, db.slots, cache.View())
         == GateStep(old(db.slots), db.sessions, db.courts, old(cache.View()), id, today, genLocked, warmLocked, epochOf)
    ensures db.reservations == old(db.reservations) && db.payOrders == old(db.payOrders)
    ensures db.courts == old(db.courts)
  {
    if id in cache.gate && cache.gate[id] == "1" {
      return Ok(());
    }
    r := WarmupSession(db, cache, id, today, genLocked, warmLocked, epochOf);
    if r.Ok? && (today, id) in cache.sessionWarmDone {
      cache.gate := cache.gate[id := "1"];
    }
  }

  /** openGate: the date and the clock are read once. */
  method OpenGate(db: Db, cache: Cache, clock: SecondOfDay, today: Date,
                  genLocked: int -> bool, warmLocked: int -> bool,
                  epochOf: (Date, TimeOfDay) -> int) returns (r: Result<()>)
    requires db.Valid()
    modifies db, cache
    ensures db.sessions == old(db.sessions) && db.Valid()
    ensures Generation(r, db.slots, cache.View())
         == OpenGates(old(db.slots), db.sessions, db.courts, old(cache.View()),
                      GateTargets(db.sessions, clock), today, genLocked, warmLocked, epochOf)
    ensures db.reservations == old(db.reservations) && db.payOrders == old(db.payOrders)
    ensures db.courts == old(db.courts)
  {
    var ix := GateTargets(db.sessions, clock);
    r := OpenAll(db, cache, ix, today, genLocked, warmLocked, epochOf);
  }

  /** openGate's loop over the selected sessions. */
  method OpenAll(db: Db, cache: Cache, ix: seq<nat>, today: Date,
                 genLocked: int -> bool, warmLocked: int -> bool,
                 epochOf: (Date, TimeOfDay) -> int) returns (r: Result<()>)
    requires db.Valid()
    modifies db, cache
    ensures db.sessions == old(db.sessions) && db.Valid()
    ensures Generation(r, db.slots, cache.View())
         == OpenGates(old(db.slots), db.sessions, db.courts, old(cache.View()), ix, today, genLocked, warmLocked, epochOf)
    ensures db.reservations == old(db.reservations) && db.payOrders == old(db.payOrders)
    ensures db.courts == old(db.courts)
  {
    ghost var goal := OpenGates(db.slots, db.sessions, db.courts, cache.View(), ix, today, genLocked, warmLocked, epochOf);
    var i := 0;
    while i < |ix|
      invariant 0 <= i <= |ix|
      invariant db.Valid()
      invariant db.reservations == old(db.reservations) && db.payOrders == old(db.payOrders)
      invariant db.courts == old(db.courts) && db.sessions == old(db.sessions)
      invariant OpenGates(db.slots, db.sessions, db.courts, cache.View(), ix[i..], today, genLocked, warmLocked, epochOf) == goal
    {
      r := OpenAt(db, cache, ix, i, today, genLocked, warmLocked, epochOf);
      if r.Err? {
        return;
      }
      i := i + 1;
    }
    r := Ok(());
  }

  /** Turn i of openGate's loop: a failure ends the loop with the specification's result,
      a success leaves the rest of the loop to compute the same result. */
  method OpenAt(db: Db, cache: Cache, ix: seq<nat>, i: nat, today: Date,
                genLocked: int -> bool, warmLocked: int -> bool,
                epochOf: (Date, TimeOfDay) -> int) returns (r: Result<()>)
    requires db.Valid() && i < |ix|
    modifies db, cache
    ensures db.sessions == old(db.sessions) && db.Valid()
    ensures db.reservations == old(db.reservations) && db.payOrders == old(db.payOrders)
    ensures db.courts == old(db.courts)
    ensures var spec := OpenGates(old(db.slots), db.sessions, db.courts, old(cache.View()), ix[i..], today, genLocked, warmLocked, epochOf);
      if r.Err? then Generation(r, db.slots, cache.View()) == spec
      else OpenGates(db.slots, db.sessions, db.courts, cache.View(), ix[i + 1..], today, genLocked, warmLocked, epochOf) == spec
  {
    ghost var slots0, c0 := db.slots, cache.View();
    r := OpenOne(db, cache, ix[i] + 1, today, genLocked(ix[i] + 1), warmLocked(ix[i] + 1), epochOf);
    OpenGatesUnfold(slots0, db.sessions, db.courts, c0, ix, i, Generation(r, db.slots, cache.View()),
                    today, genLocked, warmLocked, epochOf);
  }

  // ---------------------------------------------------------------------------------
  // ReserveTimeoutScheduler.cancelTimeoutPendingReservation

  /** A reservation the reaper selects: still awaiting payment and created no later than
      the deadline. */
  predicate Due(r: Reservation, deadline: Instant) {
    r.status == PendingPayment && r.createTime <= deadline
  }

  function DueIndices(rs: seq<Reservation>, deadline: Instant): (ix: seq<nat>)
    ensures forall k :: 0 <= k < |ix| ==> ix[k] < |rs| && Due(rs[ix[k]], deadline)
    ensures forall i :: 0 <= i < |rs| && Due(rs[i], deadline) ==> i in ix
    ensures forall k, l :: 0 <= k < l < |ix| ==> ix[k] < ix[l]
    ensures |ix| == 0 <==> forall i :: 0 <= i < |rs| ==> !Due(rs[i], deadline)
  {
    var ix := Indices(rs, r => Due(r, deadline));
    assert |ix| > 0 ==> Due(rs[ix[0]], deadline);
    ix
  }

  /** cancelTimeoutPending for each selected reservation, in order. */
  function Reap(rs: seq<Reservation>, orders: seq<PayOrder>, c: CacheView, ix: seq<nat>): (e: ReserveService.Effect)
    decreases |ix|
    ensures e.result == Ok(())
  {
    if |ix| == 0 then ReserveService.Effect(Ok(()), rs, orders, c)
    else
      var e := ReserveService.CancelTimeoutSpec(rs, orders, c, Some(ix[0] + 1));
      Reap(e.reservations, e.payOrders, e.cache, ix[1..])
  }

  /** Reaping distinct pending reservations cancels exactly those and changes no other
      row. */
  lemma {:induction false} ReapCancelsExactly(rs: seq<Reservation>, orders: seq<PayOrder>, c: CacheView, ix: seq<nat>)
    requires forall k, l :: 0 <= k < l < |ix| ==> ix[k] < ix[l]
    requires forall k :: 0 <= k < |ix| ==> ix[k] < |rs| && rs[ix[k]].status == PendingPayment
    decreases |ix|
    ensures CancelledFor(rs, Reap(rs, orders, c, ix).reservations, ix)
  {
    if |ix| > 0 {
      var e := ReserveService.CancelTimeoutSpec(rs, orders, c, Some(ix[0] + 1));
      CancelDueStep(rs, orders, c, ix[0]);
      ReapTail(rs, ix);
      ReapCancelsExactly(e.reservations, e.payOrders, e.cache, ix[1..]);
      CancelledThenReaped(rs, e.reservations, Reap(e.reservations, e.payOrders, e.cache, ix[1..]).reservations, ix[0], ix[1..]);
    }
  }

  /** From rs to fin: the rows at positions in ix are CANCELLED and every other row is
      unchanged. */
  predicate CancelledFor(rs: seq<Reservation>, fin: seq<Reservation>, ix: seq<nat>) {
    && |fin| == |rs|
    && forall i :: 0 <= i < |rs| ==> fin[i] == if i in ix then rs[i].(status := Cancelled) else rs[i]
  }

  /** Cancelling the row at position x, then those of tail. */
  lemma CancelledThenReaped(rs: seq<Reservation>, mid: seq<Reservation>, fin: seq<Reservation>, x: nat, tail: seq<nat>)
    requires x < |rs| && mid == SetStatus(rs, x, Cancelled) && x !in tail
    requires CancelledFor(mid, fin, tail)
    ensures CancelledFor(rs, fin, [x] + tail)
  {
    forall i | 0 <= i < |rs|
      ensures fin[i] == if i in [x] + tail then rs[i].(status := Cancelled) else rs[i]
    {
      assert i in [x] + tail <==> i == x || i in tail;
    }
  }

  /** Reaping the first due reservation: its row is CANCELLED and its PAYING orders are
      closed. */
  lemma CancelDueStep(rs: seq<Reservation>, orders: seq<PayOrder>, c: CacheView, x: nat)
    requires x < |rs| && rs[x].status == PendingPayment
    ensures var e := ReserveService.CancelTimeoutSpec(rs, orders, c, Some(x + 1));
      e.reservations == SetStatus(rs, x, Cancelled) && e.payOrders == CloseOrders(orders, x + 1)
  {
  }

  /** After the first due reservation is reaped, the rest of the due list is still
      increasing, still pending, and does not hold the first. */
  lemma ReapTail(rs: seq<Reservation>, ix: seq<nat>)
    requires |ix| > 0
    requires forall k, l :: 0 <= k < l < |ix| ==> ix[k] < ix[l]
    requires forall k :: 0 <= k < |ix| ==> ix[k] < |rs| && rs[ix[k]].status == PendingPayment
    ensures var tail := ix[1..];
      && (forall k, l :: 0 <= k < l < |tail| ==> tail[k] < tail[l])
      && (forall k :: 0 <= k < |tail| ==> tail[k] < |rs| && SetStatus(rs, ix[0], Cancelled)[tail[k]].status == PendingPayment)
      && ix[0] !in tail
      && ix == [ix[0]] + tail
  {
    var tail := ix[1..];
    forall k | 0 <= k < |tail|
      ensures tail[k] == ix[k + 1] && ix[0] < tail[k]
    {
    }
    assert ix == [ix[0]] + tail;
  }

  /** Reaping closes every PAYING order of the reservations it cancels and changes no
      order of any other reservation. */
  lemma {:induction false} ReapClosesOrders(rs: seq<Reservation>, orders: seq<PayOrder>, c: CacheView, ix: seq<nat>)
    requires forall k :: 0 <= k < |ix| ==> ix[k] < |rs| && rs[ix[k]].status == PendingPayment
    requires forall k, l :: 0 <= k < l < |ix| ==> ix[k] < ix[l]
    decreases |ix|
    ensures OrdersClosedFor(orders, Reap(rs, orders, c, ix).payOrders, ix)
  {
    if |ix| > 0 {
      var e := ReserveService.CancelTimeoutSpec(rs, orders, c, Some(ix[0] + 1));
      CancelDueStep(rs, orders, c, ix[0]);
      ReapTail(rs, ix);
      ReapClosesOrders(e.reservations, e.payOrders, e.cache, ix[1..]);
      ClosedThenReaped(orders, e.payOrders, Reap(e.reservations, e.payOrders, e.cache, ix[1..]).payOrders, ix[0], ix[1..]);
    }
  }

  /** From orders to fin: the orders of the reservations at positions in ix are no longer
      PAYING and every other order is unchanged. */
  predicate OrdersClosedFor(orders: seq<PayOrder>, fin: seq<PayOrder>, ix: seq<nat>) {
    && |fin| == |orders|
    && (forall j :: 0 <= j < |orders| && orders[j].reservationId - 1 in ix ==> fin[j].status != Paying)
    && (forall j :: 0 <= j < |orders| && orders[j].reservationId - 1 !in ix ==> fin[j] == orders[j])
  }

  /** Closing the orders of the reservation at position x, then those of tail. */
  lemma ClosedThenReaped(orders: seq<PayOrder>, mid: seq<PayOrder>, fin: seq<PayOrder>, x: nat, tail: seq<nat>)
    requires mid == CloseOrders(orders, x + 1) && x !in tail
    requires OrdersClosedFor(mid, fin, tail)
    ensures OrdersClosedFor(orders, fin, [x] + tail)
  {
    forall j | 0 <= j < |orders|
      ensures orders[j].reservationId - 1 in [x] + tail ==> fin[j].status != Paying
      ensures orders[j].reservationId - 1 !in [x] + tail ==> fin[j] == orders[j]
    {
      assert mid[j].reservationId == orders[j].reservationId;
    }
  }

  /** cancelTimeoutPendingReservation: a non-positive timeout disables the job; otherwise
      the deadline is the clock minus the timeout and every due reservation is reaped. */
  method CancelTimeoutPendingReservations(db: Db, cache: Cache, timeoutMinutes: int, now: Instant)
    modifies db, cache
    ensures timeoutMinutes <= 0 ==>
      db.reservations == old(db.reservations) && db.payOrders == old(db.payOrders) && cache.View() == old(cache.View())
    ensures timeoutMinutes > 0 ==>
      ReserveService.Effect(Ok(()), db.reservations, db.payOrders, cache.View())
        == Reap(old(db.reservations), old(db.payOrders), old(cache.View()),
                DueIndices(old(db.reservations), PlusMinutesAt(now, -timeoutMinutes)))
    ensures db.slots == old(db.slots) && db.courts == old(db.courts) && db.sessions == old(db.sessions)
  {
    if timeoutMinutes <= 0 {
      return;
    }
    var deadline := PlusMinutesAt(now, -timeoutMinutes);
    var ix := DueIndices(db.reservations, deadline);
    ReapAll(db, cache, ix);
  }

  /** The reaper's loop over the due reservations, in table order. */
  method ReapAll(db: Db, cache: Cache, ix: seq<nat>)
    modifies db, cache
    ensures ReserveService.Effect(Ok(()), db.reservations, db.payOrders, cache.View())
         == Reap(old(db.reservations), old(db.payOrders), old(cache.View()), ix)
    ensures db.slots == old(db.slots) && db.courts == old(db.courts) && db.sessions == old(db.sessions)
  {
    ghost var goal := Reap(db.reservations, db.payOrders, cache.View(), ix);
    var i := 0;
    while i < |ix|
      invariant 0 <= i <= |ix|
      invariant db.slots == old(db.slots) && db.courts == old(db.courts) && db.sessions == old(db.sessions)
      invariant Reap(db.reservations, db.payOrders, cache.View(), ix[i..]) == goal
    {
      assert ix[i..][0] == ix[i] && ix[i..][1..] == ix[i + 1..];
      ReserveService.CancelTimeoutPending(db, cache, Some(ix[i] + 1));
      i := i + 1;
    }
  }

  /** One pass of the reaper cancels exactly the due reservations, closes their PAYING
      orders, and leaves nothing due: a second pass with the same deadline does
      nothing. */
  lemma ReapPassSettles(rs: seq<Reservation>, orders: seq<PayOrder>, c: CacheView, deadline: Instant)
    ensures var e := Reap(rs, orders, c, DueIndices(rs, deadline));
      && |e.reservations| == |rs| && |e.payOrders| == |orders|
      && (forall i :: 0 <= i < |rs| ==> e.reservations[i] == if Due(rs[i], deadline) then rs[i].(status := Cancelled) else rs[i])
      && (forall j :: 0 <= j < |orders| && IsId(rs, orders[j].reservationId) && Due(rs[orders[j].reservationId - 1], deadline) ==>
            e.payOrders[j].status != Paying)
      && DueIndices(e.reservations, deadline) == []
      && Reap(e.reservations, e.payOrders, e.cache, DueIndices(e.reservations, deadline)) == e
  {
    var ix := DueIndices(rs, deadline);
    ReapCancelsExactly(rs, orders, c, ix);
    ReapClosesOrders(rs, orders, c, ix);
  }

  // ---------------------------------------------------------------------------------
  // DailySlotGenerateScheduler.maybeGenerateTodaySlots

  /** generateSlot for each session in turn, until one fails. */
  function GenerateAll(slots: seq<TimeSlot>, sessions: seq<FlashSession>, courts: seq<Court>, c: CacheView,
                       ids: seq<int>, today: Date, locked: int -> bool): Generation
    requires PositiveIntervals(sessions)
    decreases |ids|
  {
    if |ids| == 0 then Generation(Ok(()), slots, c)
    else
      var g := GenerateSlotSpec(slots, sessions, courts, c, ids[0], today, locked(ids[0]));
      if g.result.Err? then g else GenerateAll(g.slots, sessions, courts, g.cache, ids[1..], today, locked)
  }

  /** The ids of all sessions, in table order. */
  function AllSessionIds(sessions: seq<FlashSession>): (ids: seq<int>)
    ensures |ids| == |sessions|
    ensures forall k :: 0 <= k < |ids| ==> ids[k] == k + 1 && IsId(sessions, ids[k])
  {
    seq(|sessions|, k => k + 1)
  }

  /** From (slots, c) to g rows were only appended and flags only added; and if g is a
      success and every id was locked and names a session, every id is flagged today. */
  ghost predicate FlagsGrow(slots: seq<TimeSlot>, c: CacheView, g: Generation, ids: seq<int>,
                            sessions: seq<FlashSession>, today: Date, locked: int -> bool)
  {
    && |g.slots| >= |slots| && g.slots[..|slots|] == slots
    && c.slotGenDone <= g.cache.slotGenDone
    && (g.result.Ok? && (forall k :: 0 <= k < |ids| ==> locked(ids[k]) && IsId(sessions, ids[k])) ==>
          forall k :: 0 <= k < |ids| ==> (today, ids[k]) in g.cache.slotGenDone)
  }

  /** A pass that succeeds holding every lock leaves every visited session flagged as
      generated today; a pass only appends slots and only adds flags. */
  lemma {:induction false} GenerateAllFlags(slots: seq<TimeSlot>, sessions: seq<FlashSession>, courts: seq<Court>,
                                            c: CacheView, ids: seq<int>, today: Date, locked: int -> bool)
    requires PositiveIntervals(sessions)
    decreases |ids|
    ensures FlagsGrow(slots, c, GenerateAll(slots, sessions, courts, c, ids, today, locked), ids, sessions, today, locked)
  {
    if |ids| > 0 {
      var g := GenerateSlotSpec(slots, sessions, courts, c, ids[0], today, locked(ids[0]));
      GenerateSlotFlags(slots, sessions, courts, c, ids[0], today, locked);
      if g.result.Ok? {
        GenerateAllFlags(g.slots, sessions, courts, g.cache, ids[1..], today, locked);
      }
      var r := GenerateAll(g.slots, sessions, courts, g.cache, ids[1..], today, locked);
      GenerateAllHead(slots, sessions, courts, c, ids, g, today, locked);
      FlagsGrowStep(slots, c, g, r, ids, sessions, today, locked);
    }
  }

  /** One generation call appends rows, adds flags, and flags its session when it
      succeeds holding the lock. */
  lemma GenerateSlotFlags(slots: seq<TimeSlot>, sessions: seq<FlashSession>, courts: seq<Court>,
                          c: CacheView, id: int, today: Date, locked: int -> bool)
    requires PositiveIntervals(sessions)
    ensures FlagsGrow(slots, c, GenerateSlotSpec(slots, sessions, courts, c, id, today, locked(id)), [id], sessions, today, locked)
  {
    GenerateSlotGuarded(slots, sessions, courts, c, id, today, locked(id));
  }

  /** A pass is its first generation call followed, on success, by the rest of the pass. */
  lemma GenerateAllHead(slots: seq<TimeSlot>, sessions: seq<FlashSession>, courts: seq<Court>, c: CacheView,
                        ids: seq<int>, g: Generation, today: Date, locked: int -> bool)
    requires PositiveIntervals(sessions) && |ids| > 0
    requires g == GenerateSlotSpec(slots, sessions, courts, c, ids[0], today, locked(ids[0]))
    ensures GenerateAll(slots, sessions, courts, c, ids, today, locked)
         == if g.result.Err? then g else GenerateAll(g.slots, sessions, courts, g.cache, ids[1..], today, locked)
  {
  }

  /** Chaining the first generation call with the rest of the pass. */
  lemma FlagsGrowStep(slots: seq<TimeSlot>, c: CacheView, g: Generation, r: Generation, ids: seq<int>,
                      sessions: seq<FlashSession>, today: Date, locked: int -> bool)
    requires |ids| > 0
    requires FlagsGrow(slots, c, g, [ids[0]], sessions, today, locked)
    requires g.result.Ok? ==> FlagsGrow(g.slots, g.cache, r, ids[1..], sessions, today, locked)
    ensures FlagsGrow(slots, c, if g.result.Err? then g else r, ids, sessions, today, locked)
  {
    if g.result.Ok? {
      assert r.slots[..|g.slots|] == g.slots;
      assert r.slots[..|slots|] == g.slots[..|slots|];
      if r.result.Ok? && (forall k :: 0 <= k < |ids| ==> locked(ids[k]) && IsId(sessions, ids[k])) {
        assert [ids[0]][0] == ids[0];
        assert (today, ids[0]) in g.cache.slotGenDone;
        forall k | 1 <= k < |ids|
          ensures ids[k] == ids[1..][k - 1]
        {
        }
      }
    }
  }

  /** With every visited session already flagged for today, a pass changes nothing,
      whatever the locks. */
  lemma {:induction false} GenerateAllIdle(slots: seq<TimeSlot>, sessions: seq<FlashSession>, courts: seq<Court>,
                                           c: CacheView, ids: seq<int>, today: Date, locked: int -> bool)
    requires PositiveIntervals(sessions)
    requires forall k :: 0 <= k < |ids| ==> (today, ids[k]) in c.slotGenDone
    decreases |ids|
    ensures GenerateAll(slots, sessions, courts, c, ids, today, locked) == Generation(Ok(()), slots, c)
  {
    if |ids| > 0 {
      assert (today, ids[0]) in c.slotGenDone;
      GenerateAllIdle(slots, sessions, courts, c, ids[1..], today, locked);
    }
  }

  /** The catch-up runs of later minutes are harmless: once a pass has succeeded
      holding every lock, the next pass on the same day changes nothing. */
  lemma DailyCatchUpIdle(slots: seq<TimeSlot>, sessions: seq<FlashSession>, courts: seq<Court>, c: CacheView,
                         today: Date, locked: int -> bool, lockedLater: int -> bool)
    requires PositiveIntervals(sessions)
    requires forall id :: IsId(sessions, id) ==> locked(id)
    requires GenerateAll(slots, sessions, courts, c, AllSessionIds(sessions), today, locked).result.Ok?
    ensures var g := GenerateAll(slots, sessions, courts, c, AllSessionIds(sessions), today, locked);
      GenerateAll(g.slots, sessions, courts, g.cache, AllSessionIds(sessions), today, lockedLater) == Generation(Ok(()), g.slots, g.cache)
  {
    var ids := AllSessionIds(sessions);
    GenerateAllFlags(slots, sessions, courts, c, ids, today, locked);
    var g := GenerateAll(slots, sessions, courts, c, ids, today, locked);
    GenerateAllIdle(g.slots, sessions, courts, g.cache, ids, today, lockedLater);
  }

  /** maybeGenerateTodaySlots: nothing before the configured minute; from then on, every
      session in table order. */
  method MaybeGenerateTodaySlots(db: Db, cache: Cache, target: TimeOfDay, clock: SecondOfDay, today: Date,
                                 locked: int -> bool) returns (r: Result<()>)
    requires db.Valid()
    modifies db, cache
    ensures db.sessions == old(db.sessions) && db.Valid()
    ensures TruncateToMinute(clock) < target ==>
      r == Ok(()) && db.slots == old(db.slots) && cache.View() == old(cache.View())
    ensures TruncateToMinute(clock) >= target ==>
      Generation(r, db.slots, cache.View())
        == GenerateAll(old(db.slots), db.sessions, db.courts, old(cache.View()), AllSessionIds(db.sessions), today, locked)
    ensures db.reservations == old(db.reservations) && db.payOrders == old(db.payOrders)
    ensures db.courts == old(db.courts) && db.sessions == old(db.sessions)
  {
    var now := TruncateToMinute(clock);
    if now < target {
      return Ok(());
    }
    var ids := AllSessionIds(db.sessions);
    ghost var goal := GenerateAll(db.slots, db.sessions, db.courts, cache.View(), ids, today, locked);
    var i := 0;
    while i < |ids|
      invariant 0 <= i <= |ids|
      invariant db.Valid()
      invariant db.reservations == old(db.reservations) && db.payOrders == old(db.payOrders)
      invariant db.courts == old(db.courts) && db.sessions == old(db.sessions)
      invariant GenerateAll(db.slots, db.sessions, db.courts, cache.View(), ids[i..], today, locked) == goal
    {
      assert ids[i..][0] == ids[i] && ids[i..][1..] == ids[i + 1..];
      r := GenerateSlot(db, cache, ids[i], today, locked(ids[i]));
      if r.Err? {
        return;
      }
      i := i + 1;
    }
    r := Ok(());
  }
}
