/** ReserveConsumer: turns an admitted claim message into a PENDING_PAYMENT reservation
    row, at most once per slot. */
module ReserveConsumer {
  import opened Common
  import opened Tables

  predicate ForSlot(r: Reservation, slotId: int) {
    r.slotId == slotId
  }

  predicate HoldingSlot(r: Reservation, slotId: int) {
    r.slotId == slotId && HoldsSlot(r.status)
  }

  /** The row the consumer inserts; the trace id of the message is not copied and the
      creation time is the store's clock at insertion. */
  function NewReservation(userId: int, slotId: int, now: Instant): Reservation {
    Reservation(userId, slotId, None, PendingPayment, now)
  }

  /** handle as written: any row for the slot, whatever its status, makes the message a
      duplicate; more than one such row makes the lookup throw, and the failure is
      rethrown for redelivery. */
  function HandleSpec(rs: seq<Reservation>, userId: int, slotId: int, now: Instant): Result<seq<Reservation>> {
    match SelectOne(rs, (r: Reservation) => ForSlot(r, slotId)) {
      case NotFound => Ok(rs + [NewReservation(userId, slotId, now)])
      case Found(_) => Ok(rs)
      case TooMany => Err(Unexpected)
    }
  }

  /** A row is inserted exactly when no row for the slot exists, and the table keeps
      the uniqueness of slot-holding rows. */
  lemma HandleInsertsOnlyForFreshSlot(rs: seq<Reservation>, userId: int, slotId: int, now: Instant)
    requires UniqueActiveSlots(rs)
    ensures var r := HandleSpec(rs, userId, slotId, now);
      && (r.Ok? && r.value != rs <==> forall i :: 0 <= i < |rs| ==> rs[i].slotId != slotId)
      && (r.Ok? && r.value != rs ==> r.value == rs + [NewReservation(userId, slotId, now)])
      && (r.Ok? ==> UniqueActiveSlots(r.value))
      && (r.Err? <==> exists i, j :: 0 <= i < j < |rs| && rs[i].slotId == slotId && rs[j].slotId == slotId)
  {
    var p := (r: Reservation) => ForSlot(r, slotId);
    var look := SelectOne(rs, p);
    assert forall i :: 0 <= i < |rs| ==> (p(rs[i]) <==> rs[i].slotId == slotId);
    if look.NotFound? {
      var t := rs + [NewReservation(userId, slotId, now)];
      assert |t| != |rs|;
      forall i, j | 0 <= i < j < |t| && HoldsSlot(t[i].status) && HoldsSlot(t[j].status)
        ensures t[i].slotId != t[j].slotId
      {
        if j == |rs| {
          assert !p(rs[i]);
        }
      }
    }
  }

  /** A redelivered message changes nothing: the first delivery left a row for the slot. */
  lemma HandleIdempotent(rs: seq<Reservation>, userId: int, slotId: int, now: Instant, later: Instant)
    requires HandleSpec(rs, userId, slotId, now).Ok?
    ensures var once := HandleSpec(rs, userId, slotId, now).value;
      HandleSpec(once, userId, slotId, later) == Ok(once)
  {
    var p := (r: Reservation) => ForSlot(r, slotId);
    var once := HandleSpec(rs, userId, slotId, now).value;
    if SelectOne(rs, p).NotFound? {
      assert p(once[|rs|]);
      forall i | 0 <= i < |rs|
        ensures !p(once[i])
      {
        assert once[i] == rs[i];
      }
    }
  }

  /** The lookup as written also matches CANCELLED rows: once a reservation of a slot
      is cancelled, the next admitted claim of that slot is acknowledged but no row is
      ever written for it, although the claim path already answered with its trace id. */
  lemma HandleDropsReclaimAfterCancel()
    ensures var rs := [Reservation(7, 5, None, Cancelled, 0)];
      && HandleSpec(rs, 8, 5, 100) == Ok(rs)
      && forall i :: 0 <= i < |rs| ==> !HoldingSlot(rs[i], 5)
  {
    var rs := [Reservation(7, 5, None, Cancelled, 0)];
    var p := (r: Reservation) => ForSlot(r, 5);
    assert p(rs[0]);
    assert SelectOne(rs, p).Found?;
  }

  /** The corrected duplicate check: only a row that still holds the slot (the rows the
      store's generated unique column covers) makes the message a duplicate. */
  function HandleHeldSpec(rs: seq<Reservation>, userId: int, slotId: int, now: Instant): Result<seq<Reservation>> {
    match SelectOne(rs, (r: Reservation) => HoldingSlot(r, slotId)) {
      case NotFound => Ok(rs + [NewReservation(userId, slotId, now)])
      case Found(_) => Ok(rs)
      case TooMany => Err(Unexpected)
    }
  }

  /** On a store that keeps slot-holding rows unique the corrected consumer never fails,
      always leaves a row holding the slot, keeps the uniqueness, and inserts only when
      no row held the slot. */
  lemma HandleHeldLeavesSlotHeld(rs: seq<Reservation>, userId: int, slotId: int, now: Instant)
    requires UniqueActiveSlots(rs)
    ensures var r := HandleHeldSpec(rs, userId, slotId, now);
      && r.Ok?
      && UniqueActiveSlots(r.value)
      && (exists i :: 0 <= i < |r.value| && HoldingSlot(r.value[i], slotId))
      && (r.value != rs <==> forall i :: 0 <= i < |rs| ==> !HoldingSlot(rs[i], slotId))
      && (r.value != rs ==> r.value == rs + [NewReservation(userId, slotId, now)])
  {
    var p := (r: Reservation) => HoldingSlot(r, slotId);
    var look := SelectOne(rs, p);
    if look.NotFound? {
      var t := rs + [NewReservation(userId, slotId, now)];
      assert |t| != |rs|;
      assert HoldingSlot(t[|rs|], slotId);
      forall i, j | 0 <= i < j < |t| && HoldsSlot(t[i].status) && HoldsSlot(t[j].status)
        ensures t[i].slotId != t[j].slotId
      {
        if j == |rs| {
          assert !p(rs[i]);
        }
      }
    } else {
      assert HoldingSlot(rs[look.index], slotId);
    }
  }

  /** The corrected consumer is idempotent as well. */
  lemma HandleHeldIdempotent(rs: seq<Reservation>, userId: int, slotId: int, now: Instant, later: Instant)
    requires UniqueActiveSlots(rs)
    ensures var once := HandleHeldSpec(rs, userId, slotId, now).value;
      HandleHeldSpec(once, userId, slotId, later) == Ok(once)
  {
    HandleHeldLeavesSlotHeld(rs, userId, slotId, now);
    var once := HandleHeldSpec(rs, userId, slotId, now).value;
    HandleHeldLeavesSlotHeld(once, userId, slotId, later);
  }

  /** With the corrected check, the re-claim after a cancellation gets its row. */
  lemma HandleHeldKeepsReclaimAfterCancel()
    ensures var rs := [Reservation(7, 5, None, Cancelled, 0)];
      HandleHeldSpec(rs, 8, 5, 100) == Ok(rs + [Reservation(8, 5, None, PendingPayment, 100)])
  {
    var rs := [Reservation(7, 5, None, Cancelled, 0)];
    assert UniqueActiveSlots(rs);
    HandleHeldLeavesSlotHeld(rs, 8, 5, 100);
  }

  /** handle, as written, on the store. */
  method Handle(db: Db, userId: int, slotId: int, now: Instant) returns (r: Result<()>)
    modifies db
    ensures var spec := HandleSpec(old(db.reservations), userId, slotId, now);
      && (r.Ok? <==> spec.Ok?)
      && (r.Err? ==> r.code == spec.code && db.reservations == old(db.reservations))
      && (r.Ok? ==> db.reservations == spec.value)
    ensures db.payOrders == old(db.payOrders) && db.slots == old(db.slots)
    ensures db.courts == old(db.courts) && db.sessions == old(db.sessions)
  {
    var exist := SelectOne(db.reservations, (x: Reservation) => ForSlot(x, slotId));
    if exist.TooMany? {
      return Err(Unexpected);
    }
    if exist.Found? {
      return Ok(());
    }
    db.reservations := db.reservations + [NewReservation(userId, slotId, now)];
    return Ok(());
  }
}
