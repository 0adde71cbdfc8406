/** ReserveServiceDbImpl: the reserve mode without the cache, where the store's unique
    column on the slot of slot-holding reservations is the only admission control. */
module ReserveDb {
  import opened Common
  import opened Tables

  predicate HoldingSlot(r: Reservation, slotId: int) {
    r.slotId == slotId && HoldsSlot(r.status)
  }

  /** Some reservation holds the slot. */
  predicate SlotHeld(rs: seq<Reservation>, slotId: int) {
    exists i :: 0 <= i < |rs| && HoldingSlot(rs[i], slotId)
  }

  /** The time slot the request names, looked up by id and session among live slots. */
  predicate SlotOfSession(slots: seq<TimeSlot>, slotId: int, sessionId: int) {
    IsId(slots, slotId) && slots[slotId - 1].active && slots[slotId - 1].sessionId == sessionId
  }

  /** The checks before the insert: missing arguments, a slot outside the session, a
      missing session or flash time and a slot without a date are parameter errors; a
      slot on a later day, or today before the flash time, is not open yet. */
  function Admit(slots: seq<TimeSlot>, sessions: seq<FlashSession>, userId: Option<int>, slotId: Option<int>,
                 sessionId: Option<int>, today: Date, now: SecondOfDay): Option<Code>
  {
    if userId.None? || slotId.None? || sessionId.None? then Some(ParamError)
    else if !SlotOfSession(slots, slotId.value, sessionId.value) then Some(ParamError)
    else
      var session := SessionById(sessions, sessionId.value);
      if session.None? || session.value.flashTime.None? then Some(ParamError)
      else
        var slot := slots[slotId.value - 1];
        if slot.slotDate.None? then Some(ParamError)
        else if DateBefore(today, slot.slotDate.value) then Some(Ungated)
        else if today == slot.slotDate.value && ClockBefore(now, session.value.flashTime.value) then Some(Ungated)
        else None
  }

  predicate HasFlashTime(sessions: seq<FlashSession>, sessionId: int) {
    IsId(sessions, sessionId) && sessions[sessionId - 1].flashTime.Some?
  }

  /** The checks give PARAM_ERROR exactly for malformed requests, UNGATED exactly for a
      well-formed request before its slot opens, and nothing else. */
  lemma AdmitCases(slots: seq<TimeSlot>, sessions: seq<FlashSession>, userId: Option<int>, slotId: Option<int>,
                   sessionId: Option<int>, today: Date, now: SecondOfDay)
    ensures var a := Admit(slots, sessions, userId, slotId, sessionId, today, now);
      && (a == Some(ParamError) <==>
            || userId.None? || slotId.None? || sessionId.None?
            || !SlotOfSession(slots, slotId.value, sessionId.value)
            || !HasFlashTime(sessions, sessionId.value)
            || slots[slotId.value - 1].slotDate.None?)
      && (a == Some(Ungated) <==>
            && userId.Some? && slotId.Some? && sessionId.Some?
            && SlotOfSession(slots, slotId.value, sessionId.value)
            && HasFlashTime(sessions, sessionId.value)
            && slots[slotId.value - 1].slotDate.Some?
            && var day := slots[slotId.value - 1].slotDate.value;
               DateBefore(today, day) || (today == day && ClockBefore(now, sessions[sessionId.value - 1].flashTime.value)))
      && (a.None? || a == Some(ParamError) || a == Some(Ungated))
  {
  }

  /** What reserve leaves: the answer and the reservation table. */
  datatype Booking = Booking(result: Result<string>, reservations: seq<Reservation>)

  /** The row reserve inserts; the creation time is the store's clock. */
  function NewRow(userId: int, slotId: int, traceId: string, createdAt: Instant): Reservation {
    Reservation(userId, slotId, Some(traceId), PendingPayment, createdAt)
  }

  /** reserve: after the checks the row is inserted, unless the store rejects it as a
      duplicate key. The unique column on slot-holding rows rejects it when the slot is
      held; otherKeyClash stands for any other unique key of the table rejecting it. A
      rejected insert is resolved by the row holding the slot: the caller's own row is a
      duplicate request, another user's row means the slot is gone, and no such row is a
      failure. */
  function ReserveSpec(rs: seq<Reservation>, slots: seq<TimeSlot>, sessions: seq<FlashSession>,
                       userId: Option<int>, slotId: Option<int>, sessionId: Option<int>,
                       today: Date, now: SecondOfDay, traceId: string, otherKeyClash: bool, createdAt: Instant): Booking
  {
    match Admit(slots, sessions, userId, slotId, sessionId, today, now) {
      case Some(code) => Booking(Err(code), rs)
      case None =>
        if !SlotHeld(rs, slotId.value) && !otherKeyClash then
          Booking(Ok(traceId), rs + [NewRow(userId.value, slotId.value, traceId, createdAt)])
        else match SelectOne(rs, (r: Reservation) => HoldingSlot(r, slotId.value)) {
          case Found(i) => Booking(Err(if rs[i].userId == userId.value then DupReq else OutOfStock), rs)
          case NotFound => Booking(Err(Code.Failed), rs)
          case TooMany => Booking(Err(Unexpected), rs)
        }
    }
  }

  /** A reservation goes through exactly when the checks pass, no reservation holds the
      slot and no other key clashes; it then appends one PENDING_PAYMENT row carrying the
      returned trace id, the caller's row is the only one holding the slot, and the
      uniqueness of slot-holding rows is kept. Every rejection leaves the table as it was. */
  lemma ReserveInsertsOnce(rs: seq<Reservation>, slots: seq<TimeSlot>, sessions: seq<FlashSession>,
                           userId: Option<int>, slotId: Option<int>, sessionId: Option<int>,
                           today: Date, now: SecondOfDay, traceId: string, otherKeyClash: bool, createdAt: Instant)
    requires UniqueActiveSlots(rs)
    ensures var b := ReserveSpec(rs, slots, sessions, userId, slotId, sessionId, today, now, traceId, otherKeyClash, createdAt);
      && (b.result.Ok? <==> Admit(slots, sessions, userId, slotId, sessionId, today, now).None?
                            && !SlotHeld(rs, slotId.value) && !otherKeyClash)
      && (b.result.Err? ==> b.reservations == rs)
      && (b.result.Ok? ==>
            && b.result.value == traceId
            && b.reservations == rs + [NewRow(userId.value, slotId.value, traceId, createdAt)]
            && UniqueActiveSlots(b.reservations)
            && forall i :: 0 <= i < |b.reservations| && HoldingSlot(b.reservations[i], slotId.value) ==>
                 i == |rs| && b.reservations[i].userId == userId.value)
  {
    var b := ReserveSpec(rs, slots, sessions, userId, slotId, sessionId, today, now, traceId, otherKeyClash, createdAt);
    if b.result.Ok? {
      var t := b.reservations;
      assert |t| == |rs| + 1;
      forall i, j | 0 <= i < j < |t| && HoldsSlot(t[i].status) && HoldsSlot(t[j].status)
        ensures t[i].slotId != t[j].slotId
      {
        if j == |rs| {
          assert !HoldingSlot(rs[i], slotId.value);
        }
      }
    }
  }

  /** A rejected insert, on a table whose slot-holding rows are unique: the caller's own
      holding row gives DUP_REQ, another user's gives OUT_OF_STOCK, none gives FAILED. */
  lemma ReserveDuplicateResolved(rs: seq<Reservation>, slots: seq<TimeSlot>, sessions: seq<FlashSession>,
                                 userId: Option<int>, slotId: Option<int>, sessionId: Option<int>,
                                 today: Date, now: SecondOfDay, traceId: string, otherKeyClash: bool, createdAt: Instant)
    requires UniqueActiveSlots(rs)
    requires Admit(slots, sessions, userId, slotId, sessionId, today, now).None?
    requires SlotHeld(rs, slotId.value) || otherKeyClash
    ensures var b := ReserveSpec(rs, slots, sessions, userId, slotId, sessionId, today, now, traceId, otherKeyClash, createdAt);
      && (b.result == Err(DupReq) <==>
            exists i :: 0 <= i < |rs| && HoldingSlot(rs[i], slotId.value) && rs[i].userId == userId.value)
      && (b.result == Err(OutOfStock) <==>
            exists i :: 0 <= i < |rs| && HoldingSlot(rs[i], slotId.value) && rs[i].userId != userId.value)
      && (b.result == Err(Code.Failed) <==> !SlotHeld(rs, slotId.value))
      && b.result.Err?
  {
    var p := (r: Reservation) => HoldingSlot(r, slotId.value);
    var look := SelectOne(rs, p);
    assert forall i :: 0 <= i < |rs| ==> (p(rs[i]) <==> HoldingSlot(rs[i], slotId.value));
    assert !look.TooMany?;
    if look.Found? {
      assert HoldingSlot(rs[look.index], slotId.value);
    }
  }

  /** reserve on the store; the fresh trace id, the clock and the outcome of the unique
      keys other than the slot's are inputs. */
  method Reserve(db: Db, userId: Option<int>, slotId: Option<int>, sessionId: Option<int>,
                 today: Date, now: SecondOfDay, traceId: string, otherKeyClash: bool, createdAt: Instant)
    returns (r: Result<string>)
    modifies db
    ensures Booking(r, db.reservations)
         == ReserveSpec(old(db.reservations), old(db.slots), old(db.sessions), userId, slotId, sessionId,
                        today, now, traceId, otherKeyClash, createdAt)
    ensures db.payOrders == old(db.payOrders) && db.slots == old(db.slots)
    ensures db.courts == old(db.courts) && db.sessions == old(db.sessions)
  {
    var rejected := Admit(db.slots, db.sessions, userId, slotId, sessionId, today, now);
    if rejected.Some? {
      return Err(rejected.value);
    }
    var uid, sid := userId.value, slotId.value;
    var taken := SelectOne(db.reservations, (x: Reservation) => HoldingSlot(x, sid));
    if taken.NotFound? && !otherKeyClash {
      db.reservations := db.reservations + [NewRow(uid, sid, traceId, createdAt)];
      return Ok(traceId);
    }
    match taken {
      case Found(i) =>
        if db.reservations[i].userId == uid {
          return Err(DupReq);
        }
        return Err(OutOfStock);
      case NotFound =>
        return Err(Code.Failed);
      case TooMany =>
        return Err(Unexpected);
    }
  }

  // ---------------------------------------------------------------------------------
  // getReserveResult

  datatype ResultStatus = Recorded | NotRecorded

  /** A ReserveResultVO: the trace id, SUCCESS (Recorded) or FAILED (NotRecorded), and the
      row's id and status. */
  datatype ReserveResult = ReserveResult(traceId: string, status: ResultStatus,
                                         reservationId: Option<int>, reservationStatus: Option<ReservationStatus>)

  predicate HasTrace(r: Reservation, traceId: string) {
    r.traceId == Some(traceId)
  }

  /** getReserveResult: a missing user, a missing or blank trace id and another user's row
      are parameter errors; no row for the trace is the FAILED answer; otherwise SUCCESS
      with the row's id and status. Two rows with the same trace id make the lookup throw. */
  function GetReserveResult(rs: seq<Reservation>, userId: Option<int>, traceId: Option<string>): Result<ReserveResult> {
    if userId.None? || traceId.None? || IsBlank(traceId.value) then Err(ParamError)
    else match SelectOne(rs, (r: Reservation) => HasTrace(r, traceId.value)) {
      case NotFound => Ok(ReserveResult(traceId.value, NotRecorded, None, None))
      case TooMany => Err(Unexpected)
      case Found(i) =>
        if rs[i].userId != userId.value then Err(ParamError)
        else Ok(ReserveResult(traceId.value, Recorded, Some(i + 1), Some(rs[i].status)))
    }
  }

  /** The answer for a trace id the caller obtained from a successful reserve is SUCCESS
      with the new row's id and PENDING_PAYMENT, as long as no other row carries that
      trace id. */
  lemma ReserveThenResult(rs: seq<Reservation>, slots: seq<TimeSlot>, sessions: seq<FlashSession>,
                          userId: Option<int>, slotId: Option<int>, sessionId: Option<int>,
                          today: Date, now: SecondOfDay, traceId: string, createdAt: Instant)
    requires !IsBlank(traceId)
    requires forall i :: 0 <= i < |rs| ==> !HasTrace(rs[i], traceId)
    requires ReserveSpec(rs, slots, sessions, userId, slotId, sessionId, today, now, traceId, false, createdAt).result.Ok?
    ensures var b := ReserveSpec(rs, slots, sessions, userId, slotId, sessionId, today, now, traceId, false, createdAt);
      GetReserveResult(b.reservations, userId, Some(traceId))
        == Ok(ReserveResult(traceId, Recorded, Some(|rs| + 1), Some(PendingPayment)))
  {
    var b := ReserveSpec(rs, slots, sessions, userId, slotId, sessionId, today, now, traceId, false, createdAt);
    var t := b.reservations;
    var p := (r: Reservation) => HasTrace(r, traceId);
    assert p(t[|rs|]);
    assert forall i :: 0 <= i < |rs| ==> t[i] == rs[i];
    assert SelectOne(t, p) == Found(|rs|);
  }

  /** The answer never reveals another user's reservation, and SUCCESS names a row that
      carries the trace id and belongs to the caller. */
  lemma ResultOnlyForOwner(rs: seq<Reservation>, userId: Option<int>, traceId: Option<string>)
    ensures var r := GetReserveResult(rs, userId, traceId);
      && (r.Ok? && r.value.status == Recorded ==>
            && userId.Some? && traceId.Some?
            && r.value.reservationId.Some? && OwnedBy(rs, r.value.reservationId.value, userId.value)
            && HasTrace(rs[r.value.reservationId.value - 1], traceId.value)
            && r.value.reservationStatus == Some(rs[r.value.reservationId.value - 1].status))
      && (r.Ok? && r.value.status == NotRecorded ==>
            traceId.Some? && forall i :: 0 <= i < |rs| ==> !HasTrace(rs[i], traceId.value))
      && (userId.None? || traceId.None? || IsBlank(traceId.value) ==> r == Err(ParamError))
  {
  }

  // ---------------------------------------------------------------------------------
  // cancel and cancelTimeoutPending

  /** The reservation and pay-order tables after an operation. */
  datatype Stored = Stored(result: Result<()>, reservations: seq<Reservation>, payOrders: seq<PayOrder>)

  /** cancel: only the caller's PENDING_PAYMENT reservation; it becomes CANCELLED and its
      PAYING orders close. Nothing is given back to a cache in this mode. */
  function CancelSpec(rs: seq<Reservation>, orders: seq<PayOrder>, userId: Option<int>, reservationId: Option<int>): Stored {
    if userId.None? || reservationId.None? then Stored(Err(ParamError), rs, orders)
    else
      var id := reservationId.value;
      if !OwnedBy(rs, id, userId.value) || rs[id - 1].status != PendingPayment then Stored(Err(ParamError), rs, orders)
      else Stored(Ok(()), SetStatus(rs, id - 1, Cancelled), CloseOrders(orders, id))
  }

  /** cancelTimeoutPending: a silent no-op unless the reservation exists and is pending. */
  function CancelTimeoutSpec(rs: seq<Reservation>, orders: seq<PayOrder>, reservationId: Option<int>): Stored {
    if reservationId.None? || !IsId(rs, reservationId.value) || rs[reservationId.value - 1].status != PendingPayment then
      Stored(Ok(()), rs, orders)
    else
      var id := reservationId.value;
      Stored(Ok(()), SetStatus(rs, id - 1, Cancelled), CloseOrders(orders, id))
  }

  /** cancel succeeds exactly on the caller's pending reservation; it then cancels that
      row alone and leaves no PAYING order of it; every other request is a parameter
      error that changes nothing. Both cancellations keep slot-holding rows unique, and
      the timeout path acts at most once. */
  lemma CancelOnlyOwnPending(rs: seq<Reservation>, orders: seq<PayOrder>, userId: Option<int>, reservationId: Option<int>)
    requires UniqueActiveSlots(rs)
    ensures var e := CancelSpec(rs, orders, userId, reservationId);
      && (e.result.Ok? <==> userId.Some? && reservationId.Some? && OwnedBy(rs, reservationId.value, userId.value)
                            && rs[reservationId.value - 1].status == PendingPayment)
      && (e.result.Err? ==> e.result.code == ParamError && e.reservations == rs && e.payOrders == orders)
      && (e.result.Ok? ==>
            var id := reservationId.value;
            && e.reservations[id - 1] == rs[id - 1].(status := Cancelled)
            && (forall i :: 0 <= i < |rs| && i != id - 1 ==> e.reservations[i] == rs[i])
            && |e.reservations| == |rs|
            && (forall i :: 0 <= i < |orders| && orders[i].reservationId == id ==> e.payOrders[i].status != Paying)
            && (forall i :: 0 <= i < |orders| && orders[i].reservationId != id ==> e.payOrders[i] == orders[i]))
      && UniqueActiveSlots(e.reservations)
    ensures var t := CancelTimeoutSpec(rs, orders, reservationId);
      && UniqueActiveSlots(t.reservations)
      && CancelTimeoutSpec(t.reservations, t.payOrders, reservationId) == t
  {
    if reservationId.Some? && IsId(rs, reservationId.value) {
      SetStatusKeepsUnique(rs, reservationId.value - 1, Cancelled);
      CloseOrdersEffect(orders, reservationId.value);
    }
  }

  method ClosePayingOrders(db: Db, reservationId: int)
    modifies db
    ensures db.payOrders == CloseOrders(old(db.payOrders), reservationId)
    ensures db.reservations == old(db.reservations) && db.slots == old(db.slots)
    ensures db.courts == old(db.courts) && db.sessions == old(db.sessions)
  {
    db.payOrders := CloseOrders(db.payOrders, reservationId);
  }

  method Cancel(db: Db, userId: Option<int>, reservationId: Option<int>) returns (r: Result<()>)
    modifies db
    ensures Stored(r, db.reservations, db.payOrders) == CancelSpec(old(db.reservations), old(db.payOrders), userId, reservationId)
    ensures db.slots == old(db.slots) && db.courts == old(db.courts) && db.sessions == old(db.sessions)
  {
    if userId.None? || reservationId.None? {
      return Err(ParamError);
    }
    var id := reservationId.value;
    if !OwnedBy(db.reservations, id, userId.value) || db.reservations[id - 1].status != PendingPayment {
      return Err(ParamError);
    }
    db.reservations := SetStatus(db.reservations, id - 1, Cancelled);
    ClosePayingOrders(db, id);
    return Ok(());
  }

  method CancelTimeoutPending(db: Db, reservationId: Option<int>)
    modifies db
    ensures Stored(Ok(()), db.reservations, db.payOrders) == CancelTimeoutSpec(old(db.reservations), old(db.payOrders), reservationId)
    ensures db.slots == old(db.slots) && db.courts == old(db.courts) && db.sessions == old(db.sessions)
  {
    if reservationId.None? {
      return;
    }
    var id := reservationId.value;
    if !IsId(db.reservations, id) || db.reservations[id - 1].status != PendingPayment {
      return;
    }
    db.reservations := SetStatus(db.reservations, id - 1, Cancelled);
    ClosePayingOrders(db, id);
  }
}
