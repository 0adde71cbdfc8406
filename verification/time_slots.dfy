/** TimeSlotServiceImpl: a session's time window on a date, cut into equal slots on
    every active court, and the handlers that keep today's slots in step with a
    session's edits. */
module TimeSlots {
  import opened Common
  import opened Tables

  /** Duration.between(begin, end).toMinutes(): negative when end is earlier. */
  function Span(s: FlashSession): int {
    s.endTime - s.beginTime
  }

  /** The number of times the inner loop runs for one court: the span cut into
      intervals, none when the window is empty or reversed. */
  function SlotsPerCourt(s: FlashSession): (n: nat)
    requires s.slotInterval > 0 && Span(s) % s.slotInterval == 0
    ensures Span(s) > 0 ==> n * s.slotInterval == Span(s)
    ensures Span(s) <= 0 ==> n == 0
  {
    if Span(s) <= 0 then 0 else Span(s) / s.slotInterval
  }

  lemma MulStrict(k: int, n: int, i: int)
    requires 0 <= k < n && i > 0
    ensures k * i < n * i
  {
    assert n * i - k * i == (n - k) * i;
  }

  /** The k-th slot of one court: it starts k intervals after the beginning. */
  function SlotAt(date: Date, sessionId: int, s: FlashSession, courtId: int, k: nat): (slot: TimeSlot)
    requires s.slotInterval > 0 && Span(s) % s.slotInterval == 0 && k < SlotsPerCourt(s)
    ensures slot.startTime == s.beginTime + k * s.slotInterval
    ensures slot.endTime == slot.startTime + s.slotInterval <= s.endTime
  {
    MulStrict(k, SlotsPerCourt(s), s.slotInterval);
    assert (k + 1) * s.slotInterval == k * s.slotInterval + s.slotInterval;
    TimeSlot(Some(date), s.beginTime + k * s.slotInterval, s.beginTime + (k + 1) * s.slotInterval, courtId, sessionId, true)
  }

  /** The inner loop's output for one court. */
  function CourtSlots(date: Date, sessionId: int, s: FlashSession, courtId: int): (r: seq<TimeSlot>)
    requires s.slotInterval > 0 && Span(s) % s.slotInterval == 0
    ensures |r| == SlotsPerCourt(s)
  {
    seq(SlotsPerCourt(s), k requires 0 <= k < SlotsPerCourt(s) => SlotAt(date, sessionId, s, courtId, k))
  }

  /** The batch the nested loops build: each court's slots, courts in order. */
  function Batch(date: Date, sessionId: int, s: FlashSession, courtIds: seq<int>): (r: seq<TimeSlot>)
    requires s.slotInterval > 0 && Span(s) % s.slotInterval == 0
  {
    if |courtIds| == 0 then []
    else Batch(date, sessionId, s, courtIds[..|courtIds| - 1]) + CourtSlots(date, sessionId, s, courtIds[|courtIds| - 1])
  }

  /** One court's slots tile the session window: the first starts at the beginning,
      each starts where the previous one ends, the last ends at the end, and every start
      is strictly before the end. */
  lemma CourtSlotsTileWindow(date: Date, sessionId: int, s: FlashSession, courtId: int)
    requires s.slotInterval > 0 && Span(s) % s.slotInterval == 0
    ensures var r := CourtSlots(date, sessionId, s, courtId);
      && (|r| > 0 ==> r[0].startTime == s.beginTime && r[|r| - 1].endTime == s.endTime)
      && (forall k :: 0 <= k < |r| - 1 ==> r[k].endTime == r[k + 1].startTime)
      && (forall k :: 0 <= k < |r| ==> r[k].startTime < s.endTime)
      && (|r| == 0 <==> s.endTime <= s.beginTime)
  {
    var r := CourtSlots(date, sessionId, s, courtId);
    var n := SlotsPerCourt(s);
    if n > 0 {
      assert r[n - 1].endTime == s.beginTime + (n - 1) * s.slotInterval + s.slotInterval;
      assert (n - 1) * s.slotInterval + s.slotInterval == n * s.slotInterval;
    }
    forall k | 0 <= k < n - 1
      ensures r[k].endTime == r[k + 1].startTime
    {
      assert (k + 1) * s.slotInterval == k * s.slotInterval + s.slotInterval;
    }
  }

  /** What every generated slot carries. */
  predicate Generated(slot: TimeSlot, date: Date, sessionId: int, s: FlashSession, courtIds: seq<int>) {
    && slot.slotDate == Some(date) && slot.sessionId == sessionId && slot.active
    && slot.courtId in courtIds
    && s.beginTime <= slot.startTime < s.endTime
    && slot.endTime == slot.startTime + s.slotInterval <= s.endTime
  }

  lemma {:induction false} BatchLength(date: Date, sessionId: int, s: FlashSession, courtIds: seq<int>)
    requires s.slotInterval > 0 && Span(s) % s.slotInterval == 0
    ensures |Batch(date, sessionId, s, courtIds)| == |courtIds| * SlotsPerCourt(s)
  {
    if |courtIds| > 0 {
      BatchLength(date, sessionId, s, courtIds[..|courtIds| - 1]);
      assert |courtIds| * SlotsPerCourt(s) == (|courtIds| - 1) * SlotsPerCourt(s) + SlotsPerCourt(s);
    }
  }

  lemma CourtSlotsGenerated(date: Date, sessionId: int, s: FlashSession, courtIds: seq<int>, courtId: int)
    requires s.slotInterval > 0 && Span(s) % s.slotInterval == 0 && courtId in courtIds
    ensures forall k :: 0 <= k < |CourtSlots(date, sessionId, s, courtId)| ==>
              Generated(CourtSlots(date, sessionId, s, courtId)[k], date, sessionId, s, courtIds)
  {
    var r := CourtSlots(date, sessionId, s, courtId);
    forall k | 0 <= k < |r|
      ensures Generated(r[k], date, sessionId, s, courtIds)
    {
      assert r[k] == SlotAt(date, sessionId, s, courtId, k);
      assert 0 <= k * s.slotInterval;
    }
  }

  /** Every slot of the batch carries the date, the session, one of the courts and a
      start before the end, and lasts one interval. */
  lemma {:induction false} BatchGenerated(date: Date, sessionId: int, s: FlashSession, courtIds: seq<int>)
    requires s.slotInterval > 0 && Span(s) % s.slotInterval == 0
    ensures forall i :: 0 <= i < |Batch(date, sessionId, s, courtIds)| ==>
              Generated(Batch(date, sessionId, s, courtIds)[i], date, sessionId, s, courtIds)
  {
    if |courtIds| > 0 {
      var front := courtIds[..|courtIds| - 1];
      var last := courtIds[|courtIds| - 1];
      BatchGenerated(date, sessionId, s, front);
      CourtSlotsGenerated(date, sessionId, s, courtIds, last);
      var fb := Batch(date, sessionId, s, front);
      var row := CourtSlots(date, sessionId, s, last);
      var b := Batch(date, sessionId, s, courtIds);
      assert b == fb + row;
      forall i | 0 <= i < |b|
        ensures Generated(b[i], date, sessionId, s, courtIds)
      {
        if i < |fb| {
          assert b[i] == fb[i];
          assert Generated(fb[i], date, sessionId, s, front);
          assert fb[i].courtId in front;
        } else {
          assert b[i] == row[i - |fb|];
        }
      }
    }
  }

  /** The natural key a batch insert can collide on: the same date, session, court and
      start among the live rows. */
  predicate SameSlot(a: TimeSlot, b: TimeSlot) {
    a.slotDate == b.slotDate && a.sessionId == b.sessionId && a.courtId == b.courtId && a.startTime == b.startTime
  }

  predicate Collides(slots: seq<TimeSlot>, batch: seq<TimeSlot>) {
    exists i, j :: 0 <= i < |slots| && 0 <= j < |batch| && slots[i].active && SameSlot(slots[i], batch[j])
  }

  /** generateForDate(date, sessionId) on the slot table: a missing session yields
      nothing, an indivisible span is rejected, a colliding batch is dropped as already
      generated, and otherwise the whole batch is appended. */
  function GenerateSpec(slots: seq<TimeSlot>, sessions: seq<FlashSession>, courts: seq<Court>,
                        date: Date, sessionId: int): Result<seq<TimeSlot>>
    requires PositiveIntervals(sessions)
  {
    match SessionById(sessions, sessionId) {
      case None => Ok(slots)
      case Some(s) =>
        if Span(s) % s.slotInterval != 0 then Err(TimeUndevided)
        else
          var batch := Batch(date, sessionId, s, ActiveCourtIds(courts));
          if Collides(slots, batch) then Ok(slots) else Ok(slots + batch)
    }
  }

  /** The outcomes of generation: a missing session or a colliding batch changes
      nothing, an indivisible span is the only error, and otherwise exactly the batch is
      appended after the existing rows. */
  lemma GenerateOutcomes(slots: seq<TimeSlot>, sessions: seq<FlashSession>, courts: seq<Court>, date: Date, sessionId: int)
    requires PositiveIntervals(sessions)
    ensures var r := GenerateSpec(slots, sessions, courts, date, sessionId);
      && (!IsId(sessions, sessionId) ==> r == Ok(slots))
      && (r.Err? <==> IsId(sessions, sessionId) && Span(sessions[sessionId - 1]) % sessions[sessionId - 1].slotInterval != 0)
      && (r.Err? ==> r.code == TimeUndevided)
      && (r.Ok? ==> r.value[..|slots|] == slots)
      && (r.Ok? && r.value != slots ==>
            var s := sessions[sessionId - 1];
            && Span(s) % s.slotInterval == 0
            && r.value == slots + Batch(date, sessionId, s, ActiveCourtIds(courts))
            && !Collides(slots, Batch(date, sessionId, s, ActiveCourtIds(courts))))
  {
    if IsId(sessions, sessionId) {
      assert sessions[sessionId - 1] in sessions;
    }
  }

  /** Generating the same date and session again is a successful no-op. */
  lemma GenerateIdempotent(slots: seq<TimeSlot>, sessions: seq<FlashSession>, courts: seq<Court>, date: Date, sessionId: int)
    requires PositiveIntervals(sessions)
    requires GenerateSpec(slots, sessions, courts, date, sessionId).Ok?
    ensures var once := GenerateSpec(slots, sessions, courts, date, sessionId).value;
      GenerateSpec(once, sessions, courts, date, sessionId) == Ok(once)
  {
    var once := GenerateSpec(slots, sessions, courts, date, sessionId).value;
    if IsId(sessions, sessionId) {
      var s := sessions[sessionId - 1];
      assert s in sessions;
      var batch := Batch(date, sessionId, s, ActiveCourtIds(courts));
      if once != slots && |batch| > 0 {
        BatchGenerated(date, sessionId, s, ActiveCourtIds(courts));
        assert Generated(batch[0], date, sessionId, s, ActiveCourtIds(courts));
        assert once[|slots|] == batch[0];
        assert Collides(once, batch);
      } else if once == slots && |batch| > 0 {
        assert Collides(slots, batch);
      }
    }
  }

  /** The inner loop of generateForDate: t runs from the beginning in steps of one
      interval while it is before the end; divisibility makes it stop exactly there. */
  method CourtRow(date: Date, sessionId: int, s: FlashSession, courtId: int) returns (row: seq<TimeSlot>)
    requires s.slotInterval > 0 && Span(s) % s.slotInterval == 0
    ensures row == CourtSlots(date, sessionId, s, courtId)
  {
    var n := SlotsPerCourt(s);
    var interval := s.slotInterval;
    ghost var spec := CourtSlots(date, sessionId, s, courtId);
    row := [];
    var t: TimeOfDay := s.beginTime;
    var k := 0;
    while t < s.endTime
      invariant 0 <= k <= n
      invariant t == s.beginTime + k * interval
      invariant row == spec[..k]
      decreases s.endTime - t
    {
      if k == n {
        assert false;
      }
      var slot := TimeSlot(Some(date), t, PlusMinutes(t, interval), courtId, sessionId, true);
      assert slot == spec[k];
      row := row + [slot];
      t := PlusMinutes(t, interval);
      k := k + 1;
      assert spec[..k] == spec[..k - 1] + [spec[k - 1]];
    }
    if k < n {
      MulStrict(k, n, interval);
      assert false;
    }
    assert spec[..k] == spec;
  }

  /** The outer loop of generateForDate: one row of slots per court, in court order. */
  method BuildBatch(date: Date, sessionId: int, s: FlashSession, courtIds: seq<int>) returns (batch: seq<TimeSlot>)
    requires s.slotInterval > 0 && Span(s) % s.slotInterval == 0
    ensures batch == Batch(date, sessionId, s, courtIds)
  {
    batch := [];
    var ci := 0;
    while ci < |courtIds|
      invariant 0 <= ci <= |courtIds|
      invariant batch == Batch(date, sessionId, s, courtIds[..ci])
    {
      var row := CourtRow(date, sessionId, s, courtIds[ci]);
      batch := batch + row;
      assert courtIds[..ci + 1][..ci] == courtIds[..ci];
      ci := ci + 1;
    }
    assert courtIds[..ci] == courtIds;
  }

  /** generateForDate(date, sessionId): nested loops build the batch, then one insert. */
  method GenerateForDate(db: Db, date: Date, sessionId: int) returns (r: Result<()>)
    requires db.Valid()
    modifies db
    ensures var spec := GenerateSpec(old(db.slots), old(db.sessions), old(db.courts), date, sessionId);
      && (r.Ok? <==> spec.Ok?)
      && (r.Err? ==> r.code == spec.code && db.slots == old(db.slots))
      && (r.Ok? ==> db.slots == spec.value)
    ensures db.reservations == old(db.reservations) && db.payOrders == old(db.payOrders)
    ensures db.courts == old(db.courts) && db.sessions == old(db.sessions)
  {
    var courtIds := ActiveCourtIds(db.courts);
    var found := SessionById(db.sessions, sessionId);
    if found.None? {
      return Ok(());
    }
    var s := found.value;
    assert s in db.sessions;
    var interval := s.slotInterval;
    if Span(s) % interval != 0 {
      return Err(TimeUndevided);
    }
    var batch := BuildBatch(date, sessionId, s, courtIds);
    if Collides(db.slots, batch) {
      return Ok(());
    }
    db.slots := db.slots + batch;
    return Ok(());
  }

  /** LocalTime.isBefore(now): the session's beginning has already passed today. */
  predicate BeginPassed(s: FlashSession, now: SecondOfDay) {
    s.beginTime * 60 < now
  }

  /** The rows a delete by session and date retires: all of that session's rows for
      that day, logically. */
  function Retire(slots: seq<TimeSlot>, sessionId: int, day: Date): (r: seq<TimeSlot>)
    ensures |r| == |slots|
  {
    seq(|slots|, i requires 0 <= i < |slots| =>
      if slots[i].sessionId == sessionId && slots[i].slotDate == Some(day)
      then slots[i].(active := false) else slots[i])
  }

  /** After retiring a session's day, generation for that session and day never finds
      a collision: it appends the whole fresh batch. */
  lemma RetireThenGenerate(slots: seq<TimeSlot>, sessions: seq<FlashSession>, courts: seq<Court>, sessionId: int, day: Date)
    requires PositiveIntervals(sessions)
    requires IsId(sessions, sessionId)
    requires var s := sessions[sessionId - 1]; Span(s) % s.slotInterval == 0
    ensures var s := sessions[sessionId - 1];
      var retired := Retire(slots, sessionId, day);
      GenerateSpec(retired, sessions, courts, day, sessionId) == Ok(retired + Batch(day, sessionId, s, ActiveCourtIds(courts)))
  {
    var s := sessions[sessionId - 1];
    assert s in sessions;
    var retired := Retire(slots, sessionId, day);
    var batch := Batch(day, sessionId, s, ActiveCourtIds(courts));
    BatchGenerated(day, sessionId, s, ActiveCourtIds(courts));
    forall i, j | 0 <= i < |retired| && 0 <= j < |batch| && retired[i].active
      ensures !SameSlot(retired[i], batch[j])
    {
      assert Generated(batch[j], day, sessionId, s, ActiveCourtIds(courts));
    }
  }

  /** deleteSessionHandler on the slot table: today's live slots of the session are
      deleted logically, unless the session has already begun. */
  function DeleteTodaySpec(slots: seq<TimeSlot>, sessions: seq<FlashSession>, sessionId: int,
                           today: Date, now: SecondOfDay): (r: Result<seq<TimeSlot>>)
  {
    match SessionById(sessions, sessionId) {
      case None => Err(Unexpected)
      case Some(s) =>
        if BeginPassed(s, now) then Ok(slots) else Ok(Retire(slots, sessionId, today))
    }
  }

  /** addSessionHandler: today's slots are generated unless the session has begun. */
  function AddTodaySpec(slots: seq<TimeSlot>, sessions: seq<FlashSession>, courts: seq<Court>, sessionId: int,
                        today: Date, now: SecondOfDay): Result<seq<TimeSlot>>
    requires PositiveIntervals(sessions)
  {
    match SessionById(sessions, sessionId) {
      case None => Err(Unexpected)
      case Some(s) =>
        if BeginPassed(s, now) then Ok(slots) else GenerateSpec(slots, sessions, courts, today, sessionId)
    }
  }

  /** updateSessionHandler: delete, then add, in one transaction. */
  function UpdateTodaySpec(slots: seq<TimeSlot>, sessions: seq<FlashSession>, courts: seq<Court>, sessionId: int,
                           today: Date, now: SecondOfDay): Result<seq<TimeSlot>>
    requires PositiveIntervals(sessions)
  {
    match DeleteTodaySpec(slots, sessions, sessionId, today, now) {
      case Err(e) => Err(e)
      case Ok(deleted) => AddTodaySpec(deleted, sessions, courts, sessionId, today, now)
    }
  }

  /** Once the session has begun, neither handler touches the slot table. */
  lemma HandlersIdleAfterBegin(slots: seq<TimeSlot>, sessions: seq<FlashSession>, courts: seq<Court>, sessionId: int,
                               today: Date, now: SecondOfDay)
    requires PositiveIntervals(sessions)
    requires IsId(sessions, sessionId) && BeginPassed(sessions[sessionId - 1], now)
    ensures DeleteTodaySpec(slots, sessions, sessionId, today, now) == Ok(slots)
    ensures AddTodaySpec(slots, sessions, courts, sessionId, today, now) == Ok(slots)
    ensures UpdateTodaySpec(slots, sessions, courts, sessionId, today, now) == Ok(slots)
  {
  }

  /** Deletion retires every live slot of the session for today and nothing else. */
  lemma DeleteTodayEffect(slots: seq<TimeSlot>, sessions: seq<FlashSession>, sessionId: int, today: Date, now: SecondOfDay)
    requires IsId(sessions, sessionId) && !BeginPassed(sessions[sessionId - 1], now)
    ensures var r := DeleteTodaySpec(slots, sessions, sessionId, today, now);
      && r.Ok? && |r.value| == |slots|
      && (forall i :: 0 <= i < |slots| && slots[i].sessionId == sessionId && slots[i].slotDate == Some(today) ==>
            !r.value[i].active && r.value[i] == slots[i].(active := false))
      && (forall i :: 0 <= i < |slots| && (slots[i].sessionId != sessionId || slots[i].slotDate != Some(today)) ==>
            r.value[i] == slots[i])
  {
  }

  /** After an update of a session that has not begun, the live slots of that session
      for today are exactly a fresh batch, cut from the session's current window. */
  lemma UpdateRegeneratesToday(slots: seq<TimeSlot>, sessions: seq<FlashSession>, courts: seq<Court>, sessionId: int,
                               today: Date, now: SecondOfDay)
    requires PositiveIntervals(sessions)
    requires IsId(sessions, sessionId) && !BeginPassed(sessions[sessionId - 1], now)
    requires var s := sessions[sessionId - 1]; Span(s) % s.slotInterval == 0
    ensures var s := sessions[sessionId - 1];
      var r := UpdateTodaySpec(slots, sessions, courts, sessionId, today, now);
      && r.Ok? && |r.value| >= |slots|
      && r.value[|slots|..] == Batch(today, sessionId, s, ActiveCourtIds(courts))
      && forall i :: 0 <= i < |slots| && r.value[i].active ==>
           r.value[i].sessionId != sessionId || r.value[i].slotDate != Some(today)
  {
    DeleteTodayEffect(slots, sessions, sessionId, today, now);
    RetireThenGenerate(slots, sessions, courts, sessionId, today);
  }

  method DeleteSessionHandler(db: Db, sessionId: int, today: Date, now: SecondOfDay) returns (r: Result<()>)
    modifies db
    ensures var spec := DeleteTodaySpec(old(db.slots), old(db.sessions), sessionId, today, now);
      && (r.Ok? <==> spec.Ok?)
      && (r.Err? ==> r.code == spec.code && db.slots == old(db.slots))
      && (r.Ok? ==> db.slots == spec.value)
    ensures db.reservations == old(db.reservations) && db.payOrders == old(db.payOrders)
    ensures db.courts == old(db.courts) && db.sessions == old(db.sessions)
  {
    var found := SessionById(db.sessions, sessionId);
    if found.None? {
      return Err(Unexpected);
    }
    if BeginPassed(found.value, now) {
      return Ok(());
    }
    db.slots := DeleteTodaySpec(db.slots, db.sessions, sessionId, today, now).value;
    return Ok(());
  }

  method AddSessionHandler(db: Db, sessionId: int, today: Date, now: SecondOfDay) returns (r: Result<()>)
    requires db.Valid()
    modifies db
    ensures var spec := AddTodaySpec(old(db.slots), old(db.sessions), old(db.courts), sessionId, today, now);
      && (r.Ok? <==> spec.Ok?)
      && (r.Err? ==> r.code == spec.code && db.slots == old(db.slots))
      && (r.Ok? ==> db.slots == spec.value)
    ensures db.reservations == old(db.reservations) && db.payOrders == old(db.payOrders)
    ensures db.courts == old(db.courts) && db.sessions == old(db.sessions)
  {
    var found := SessionById(db.sessions, sessionId);
    if found.None? {
      return Err(Unexpected);
    }
    if BeginPassed(found.value, now) {
      return Ok(());
    }
    r := GenerateForDate(db, today, sessionId);
  }

  /** updateSessionHandler: a failure of the add step rolls the delete back. */
  method UpdateSessionHandler(db: Db, sessionId: int, today: Date, now: SecondOfDay) returns (r: Result<()>)
    requires db.Valid()
    modifies db
    ensures var spec := UpdateTodaySpec(old(db.slots), old(db.sessions), old(db.courts), sessionId, today, now);
      && (r.Ok? <==> spec.Ok?)
      && (r.Err? ==> r.code == spec.code && db.slots == old(db.slots))
      && (r.Ok? ==> db.slots == spec.value)
    ensures db.reservations == old(db.reservations) && db.payOrders == old(db.payOrders)
    ensures db.courts == old(db.courts) && db.sessions == old(db.sessions)
  {
    var before := db.slots;
    r := DeleteSessionHandler(db, sessionId, today, now);
    if r.Err? {
      return;
    }
    r := AddSessionHandler(db, sessionId, today, now);
    if r.Err? {
      db.slots := before;
    }
  }
}
