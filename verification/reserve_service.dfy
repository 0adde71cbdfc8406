/** ReserveServiceImpl: the cache-backed claim path (binding, rate limit, gate, dedup,
    permit, pending record, publish outcome) and the two cancellations that give the
    claim's cached resources back. */
module ReserveService {
  import opened Common
  import opened CacheStore
  import opened Tables
  import opened PublishCallback

  /** What the claim path learns from publishing the claim message: the send failed, the
      broker acked or nacked, the confirm came back null, no confirm arrived in time, or
      the wait for it was interrupted or failed otherwise. */
  datatype PublishOutcome = SendError | Ack | Nack | NullConfirm | ConfirmTimeout | Interrupted | ConfirmError

  datatype Admission = Admission(result: Result<string>, cache: CacheView)

  /** The cache once every check has passed: one permit taken, the user in the dedup
      set, and the pending record stored under the trace id. */
  function Claimed(c: CacheView, userId: int, slotId: int, traceId: string): (r: CacheView)
    requires CanAcquire(c, slotId)
  {
    Acquire(DedupAdd(c, slotId, userId), slotId).(pending := c.pending[traceId := EncodePending(userId, slotId)])
  }

  /** The ordered checks of reserve, up to and including the pending record. */
  function AdmitSpec(c: CacheView, userId: int, slotId: int, sessionId: int, allowed: bool, traceId: string): Admission {
    if slotId !in c.binding || c.binding[slotId] != sessionId then Admission(Err(ParamError), c)
    else if !allowed then Admission(Err(TooManyRequests), c)
    else if sessionId !in c.gate || c.gate[sessionId] != "1" then Admission(Err(Ungated), c)
    else if userId in Members(c, slotId) then Admission(Err(DupReq), c)
    else if !CanAcquire(c, slotId) then
      Admission(Err(OutOfStock), DedupRemove(DedupAdd(c, slotId, userId), slotId, userId))
    else Admission(Ok(traceId), Claimed(c, userId, slotId, traceId))
  }

  /** reserve: the checks, then the reaction to the publish outcome. */
  function ReserveSpec(c: CacheView, userId: int, slotId: int, sessionId: int, allowed: bool,
                       traceId: string, outcome: PublishOutcome): Admission
  {
    var a := AdmitSpec(c, userId, slotId, sessionId, allowed, traceId);
    if a.result.Err? then a
    else match outcome {
      case Ack => a
      case ConfirmTimeout => a
      case SendError => Admission(Err(Code.Failed), CompensateSpec(a.cache, traceId))
      case Nack => Admission(Err(Code.Failed), CompensateSpec(a.cache, traceId))
      case NullConfirm => Admission(Err(Code.Failed), CompensateSpec(a.cache, traceId))
      case Interrupted => Admission(Err(Code.Failed), a.cache)
      case ConfirmError => Admission(Err(Code.Failed), a.cache)
    }
  }

  predicate Bound(c: CacheView, slotId: int, sessionId: int) {
    slotId in c.binding && c.binding[slotId] == sessionId
  }

  /** A slot not bound to the requested session is rejected before the rate limiter is
      consulted (the outcome does not depend on it) and before anything is touched. */
  lemma ReserveRejectsForeignSlot(c: CacheView, userId: int, slotId: int, sessionId: int, allowed: bool,
                                  traceId: string, outcome: PublishOutcome)
    requires !Bound(c, slotId, sessionId)
    ensures ReserveSpec(c, userId, slotId, sessionId, allowed, traceId, outcome) == Admission(Err(ParamError), c)
  {
  }

  /** A rate-limit refusal touches nothing. */
  lemma ReserveRateLimited(c: CacheView, userId: int, slotId: int, sessionId: int, traceId: string, outcome: PublishOutcome)
    requires Bound(c, slotId, sessionId)
    ensures ReserveSpec(c, userId, slotId, sessionId, false, traceId, outcome) == Admission(Err(TooManyRequests), c)
  {
  }

  /** Any gate value other than "1", including an absent gate and the "0" warmup writes,
      rejects without touching the dedup set or the permits. */
  lemma ReserveUngated(c: CacheView, userId: int, slotId: int, sessionId: int, traceId: string, outcome: PublishOutcome)
    requires Bound(c, slotId, sessionId) && !GateOpen(c, sessionId)
    ensures ReserveSpec(c, userId, slotId, sessionId, true, traceId, outcome) == Admission(Err(Ungated), c)
  {
  }

  /** A user already in the slot's dedup set is rejected and the permits are untouched. */
  lemma ReserveDuplicate(c: CacheView, userId: int, slotId: int, sessionId: int, traceId: string, outcome: PublishOutcome)
    requires Bound(c, slotId, sessionId) && GateOpen(c, sessionId) && userId in Members(c, slotId)
    ensures ReserveSpec(c, userId, slotId, sessionId, true, traceId, outcome) == Admission(Err(DupReq), c)
  {
  }

  /** Adding a new member and removing it again restores the cache exactly, because the
      server never holds an empty set. */
  lemma AddThenRemove(c: CacheView, slotId: int, userId: int)
    requires WellFormed(c) && userId !in Members(c, slotId)
    ensures DedupRemove(DedupAdd(c, slotId, userId), slotId, userId) == c
  {
    var r := DedupRemove(DedupAdd(c, slotId, userId), slotId, userId);
    assert r.dedup.Keys == c.dedup.Keys;
    forall s | s in c.dedup
      ensures r.dedup[s] == c.dedup[s]
    {
      assert Members(r, s) == Members(c, s);
    }
  }

  /** Without a permit the claim fails and the dedup rollback leaves the cache exactly as
      it was. */
  lemma ReserveOutOfStock(c: CacheView, userId: int, slotId: int, sessionId: int, traceId: string, outcome: PublishOutcome)
    requires WellFormed(c)
    requires Bound(c, slotId, sessionId) && GateOpen(c, sessionId)
    requires userId !in Members(c, slotId) && !CanAcquire(c, slotId)
    ensures ReserveSpec(c, userId, slotId, sessionId, true, traceId, outcome) == Admission(Err(OutOfStock), c)
  {
    AddThenRemove(c, slotId, userId);
  }

  /** Once the checks pass exactly three things change: the slot loses one permit, the
      user joins the slot's dedup set, and the pending record appears. */
  lemma AdmitChangesExactlyThree(c: CacheView, userId: int, slotId: int, sessionId: int, traceId: string)
    requires Bound(c, slotId, sessionId) && GateOpen(c, sessionId)
    requires userId !in Members(c, slotId) && CanAcquire(c, slotId)
    ensures var a := AdmitSpec(c, userId, slotId, sessionId, true, traceId);
      && a.result == Ok(traceId)
      && a.cache.permits == c.permits[slotId := c.permits[slotId] - 1]
      && a.cache.dedup == c.dedup[slotId := Members(c, slotId) + {userId}]
      && a.cache.pending == c.pending[traceId := EncodePending(userId, slotId)]
      && a.cache.binding == c.binding && a.cache.gate == c.gate && a.cache.gateTime == c.gateTime
      && a.cache.slotWarm == c.slotWarm && a.cache.sessionWarmDone == c.sessionWarmDone
      && a.cache.slotGenDone == c.slotGenDone
  {
  }

  /** An acked or timed-out publish returns the trace id and keeps the claim, pending
      record included; an interrupted or failed wait reports failure but keeps it too. */
  lemma ReserveKeepsClaim(c: CacheView, userId: int, slotId: int, sessionId: int, traceId: string, outcome: PublishOutcome)
    requires Bound(c, slotId, sessionId) && GateOpen(c, sessionId)
    requires userId !in Members(c, slotId) && CanAcquire(c, slotId)
    requires outcome in {Ack, ConfirmTimeout, Interrupted, ConfirmError}
    ensures var r := ReserveSpec(c, userId, slotId, sessionId, true, traceId, outcome);
      && r.cache == Claimed(c, userId, slotId, traceId)
      && r.cache.pending[traceId] == EncodePending(userId, slotId)
      && (r.result.Ok? <==> outcome in {Ack, ConfirmTimeout})
      && (r.result.Ok? ==> r.result.value == traceId)
      && (r.result.Err? ==> r.result.code == Code.Failed)
  {
  }

  lemma CompensateRecord(c: CacheView, traceId: string, userId: int, slotId: int)
    requires InInt32(userId) && InInt32(slotId)
    requires traceId != "" && traceId in c.pending && c.pending[traceId] == EncodePending(userId, slotId)
    ensures CompensateSpec(c, traceId) == Release(DedupRemove(c.(pending := c.pending - {traceId}), slotId, userId), slotId)
  {
    DecodeEncodePending(userId, slotId);
  }

  /** Consuming the pending record of a claim under a fresh trace id leaves the dedup
      and permit changes. */
  lemma ConsumeClaimRecord(c: CacheView, userId: int, slotId: int, traceId: string)
    requires traceId !in c.pending && CanAcquire(c, slotId)
    ensures var claimed := Claimed(c, userId, slotId, traceId);
      claimed.(pending := claimed.pending - {traceId}) == Acquire(DedupAdd(c, slotId, userId), slotId)
  {
    assert c.pending[traceId := EncodePending(userId, slotId)] - {traceId} == c.pending;
  }

  /** Dropping a new member after taking a permit leaves only the permit taken. */
  lemma DropNewMember(c: CacheView, userId: int, slotId: int)
    requires WellFormed(c) && userId !in Members(c, slotId) && CanAcquire(c, slotId)
    ensures DedupRemove(Acquire(DedupAdd(c, slotId, userId), slotId), slotId, userId) == Acquire(c, slotId)
  {
    var d := DedupAdd(c, slotId, userId);
    AddThenRemove(c, slotId, userId);
    assert DedupRemove(Acquire(d, slotId), slotId, userId).dedup == DedupRemove(d, slotId, userId).dedup;
  }

  /** Compensating a claim under a fresh trace id undoes all three of its changes. */
  lemma CompensateUndoesClaim(c: CacheView, userId: int, slotId: int, traceId: string)
    requires WellFormed(c) && InInt32(userId) && InInt32(slotId)
    requires traceId != "" && traceId !in c.pending
    requires userId !in Members(c, slotId) && CanAcquire(c, slotId)
    ensures CompensateSpec(Claimed(c, userId, slotId, traceId), traceId) == c
  {
    var claimed := Claimed(c, userId, slotId, traceId);
    CompensateRecord(claimed, traceId, userId, slotId);
    ConsumeClaimRecord(c, userId, slotId, traceId);
    DropNewMember(c, userId, slotId);
    ReleaseUndoesAcquire(c, slotId);
  }

  /** A send error, a nack or a null confirm fails the request and compensates: with a
      fresh trace id the cache ends exactly as it was before the claim. */
  lemma ReserveFailedPublishRestores(c: CacheView, userId: int, slotId: int, sessionId: int, traceId: string, outcome: PublishOutcome)
    requires WellFormed(c) && InInt32(userId) && InInt32(slotId)
    requires traceId != "" && traceId !in c.pending
    requires Bound(c, slotId, sessionId) && GateOpen(c, sessionId)
    requires userId !in Members(c, slotId) && CanAcquire(c, slotId)
    requires outcome in {SendError, Nack, NullConfirm}
    ensures ReserveSpec(c, userId, slotId, sessionId, true, traceId, outcome) == Admission(Err(Code.Failed), c)
  {
    CompensateUndoesClaim(c, userId, slotId, traceId);
  }

  predicate PermitsNonNegative(c: CacheView) {
    forall s :: s in c.permits ==> c.permits[s] >= 0
  }

  lemma ClaimedKeepsInvariants(c: CacheView, userId: int, slotId: int, traceId: string)
    requires WellFormed(c) && PermitsNonNegative(c) && CanAcquire(c, slotId)
    ensures WellFormed(Claimed(c, userId, slotId, traceId)) && PermitsNonNegative(Claimed(c, userId, slotId, traceId))
  {
    var d := DedupAdd(c, slotId, userId);
    forall s | s in d.dedup
      ensures d.dedup[s] != {}
    {
      assert s in Members(d, s) || userId in Members(d, s) || Members(d, s) == Members(c, s);
    }
  }

  lemma CompensateKeepsInvariants(c: CacheView, traceId: string)
    requires WellFormed(c) && PermitsNonNegative(c)
    ensures WellFormed(CompensateSpec(c, traceId)) && PermitsNonNegative(CompensateSpec(c, traceId))
  {
    if traceId != "" && traceId in c.pending {
      var consumed := c.(pending := c.pending - {traceId});
      assert WellFormed(consumed) && PermitsNonNegative(consumed);
      match DecodePending(c.pending[traceId]) {
        case None =>
        case Some(ids) =>
          var removed := DedupRemove(consumed, ids.1, ids.0);
          assert removed.permits == consumed.permits;
          assert WellFormed(removed) && PermitsNonNegative(removed);
      }
    }
  }

  /** No outcome of reserve drives a permit count below zero or leaves an empty set. */
  lemma ReserveKeepsCacheInvariants(c: CacheView, userId: int, slotId: int, sessionId: int, allowed: bool,
                                    traceId: string, outcome: PublishOutcome)
    requires WellFormed(c) && PermitsNonNegative(c)
    ensures var r := ReserveSpec(c, userId, slotId, sessionId, allowed, traceId, outcome).cache;
      WellFormed(r) && PermitsNonNegative(r)
  {
    var a := AdmitSpec(c, userId, slotId, sessionId, allowed, traceId);
    if a.result.Ok? {
      ClaimedKeepsInvariants(c, userId, slotId, traceId);
      CompensateKeepsInvariants(a.cache, traceId);
    } else if a.cache != c {
      assert a.cache == DedupRemove(DedupAdd(c, slotId, userId), slotId, userId);
      ClaimedDedupStillWellFormed(c, slotId, userId);
    }
  }

  lemma ClaimedDedupStillWellFormed(c: CacheView, slotId: int, userId: int)
    requires WellFormed(c)
    ensures WellFormed(DedupRemove(DedupAdd(c, slotId, userId), slotId, userId))
  {
    var d := DedupAdd(c, slotId, userId);
    forall s | s in d.dedup
      ensures d.dedup[s] != {}
    {
      assert s == slotId || Members(d, s) == Members(c, s);
    }
  }

  /** The checks of reserve and the claim, one cache operation at a time. */
  method Admit(cache: Cache, userId: int, slotId: int, sessionId: int, allowed: bool, traceId: string)
    returns (r: Result<string>)
    modifies cache
    ensures Admission(r, cache.View()) == AdmitSpec(old(cache.View()), userId, slotId, sessionId, allowed, traceId)
  {
    if slotId !in cache.binding || cache.binding[slotId] != sessionId {
      return Err(ParamError);
    }
    if !allowed {
      return Err(TooManyRequests);
    }
    if sessionId !in cache.gate || cache.gate[sessionId] != "1" {
      return Err(Ungated);
    }
    ghost var before := cache.View();
    var firstTry := cache.AddMember(slotId, userId);
    if !firstTry {
      DedupAddExisting(before, slotId, userId);
      return Err(DupReq);
    }
    var got := cache.TryAcquire(slotId);
    if !got {
      cache.RemoveMember(slotId, userId);
      return Err(OutOfStock);
    }
    cache.SetPending(traceId, EncodePending(userId, slotId));
    r := Ok(traceId);
  }

  /** reserve as the service performs it: the claim, then the reaction to the publish outcome. */
  method Reserve(cache: Cache, userId: int, slotId: int, sessionId: int, allowed: bool,
                 traceId: string, outcome: PublishOutcome) returns (r: Result<string>)
    modifies cache
    ensures Admission(r, cache.View()) == ReserveSpec(old(cache.View()), userId, slotId, sessionId, allowed, traceId, outcome)
  {
    r := Admit(cache, userId, slotId, sessionId, allowed, traceId);
    if r.Err? {
      return;
    }
    match outcome {
      case SendError =>
        Compensate(cache, traceId);
        return Err(Code.Failed);
      case Nack =>
        Compensate(cache, traceId);
        return Err(Code.Failed);
      case NullConfirm =>
        Compensate(cache, traceId);
        return Err(Code.Failed);
      case ConfirmTimeout =>
        return Ok(traceId);
      case Ack =>
        return Ok(traceId);
      case Interrupted =>
        return Err(Code.Failed);
      case ConfirmError =>
        return Err(Code.Failed);
    }
  }

  /** The reservation and pay-order tables and the cache after an operation. */
  datatype Effect = Effect(result: Result<()>, reservations: seq<Reservation>, payOrders: seq<PayOrder>, cache: CacheView)

  /** cancel: only the owner's PENDING_PAYMENT reservation; it becomes CANCELLED, its
      PAYING orders close, and its cached resources are given back. */
  function CancelSpec(rs: seq<Reservation>, orders: seq<PayOrder>, c: CacheView,
                      userId: Option<int>, reservationId: Option<int>): Effect
  {
    if userId.None? || reservationId.None? then Effect(Err(ParamError), rs, orders, c)
    else
      var id := reservationId.value;
      if !OwnedBy(rs, id, userId.value) || rs[id - 1].status != PendingPayment then Effect(Err(ParamError), rs, orders, c)
      else Effect(Ok(()), SetStatus(rs, id - 1, Cancelled), CloseOrders(orders, id),
                  ReleaseReserveResourceSpec(c, userId.value, rs[id - 1].slotId))
  }

  /** cancelTimeoutPending: a silent no-op unless the reservation exists and is pending. */
  function CancelTimeoutSpec(rs: seq<Reservation>, orders: seq<PayOrder>, c: CacheView,
                             reservationId: Option<int>): Effect
  {
    if reservationId.None? || !IsId(rs, reservationId.value) || rs[reservationId.value - 1].status != PendingPayment then
      Effect(Ok(()), rs, orders, c)
    else
      var id := reservationId.value;
      Effect(Ok(()), SetStatus(rs, id - 1, Cancelled), CloseOrders(orders, id),
             ReleaseReserveResourceSpec(c, rs[id - 1].userId, rs[id - 1].slotId))
  }

  /** A successful cancel: the row is CANCELLED, no order of it is still PAYING, the user
      has left the slot's dedup set and the slot's existing semaphore gained one permit;
      every failure leaves all state unchanged. */
  lemma CancelEffect(rs: seq<Reservation>, orders: seq<PayOrder>, c: CacheView, userId: Option<int>, reservationId: Option<int>)
    ensures var e := CancelSpec(rs, orders, c, userId, reservationId);
      && (e.result.Err? ==> e.result.code == ParamError && e.reservations == rs && e.payOrders == orders && e.cache == c)
      && (e.result.Ok? <==> userId.Some? && reservationId.Some? && OwnedBy(rs, reservationId.value, userId.value)
                            && rs[reservationId.value - 1].status == PendingPayment)
      && (e.result.Ok? ==>
            var id := reservationId.value;
            var slotId := rs[id - 1].slotId;
            && e.reservations[id - 1].status == Cancelled
            && (forall i :: 0 <= i < |rs| && i != id - 1 ==> e.reservations[i] == rs[i])
            && (forall i :: 0 <= i < |orders| && orders[i].reservationId == id ==> e.payOrders[i].status != Paying)
            && userId.value !in Members(e.cache, slotId)
            && (slotId in c.permits ==> e.cache.permits[slotId] == c.permits[slotId] + 1)
            && e.cache.permits.Keys == c.permits.Keys)
  {
    if CancelSpec(rs, orders, c, userId, reservationId).result.Ok? {
      CloseOrdersEffect(orders, reservationId.value);
    }
  }

  /** Reaping the same reservation twice gives its resources back at most once: the
      second call finds it CANCELLED and does nothing. */
  lemma CancelTimeoutAtMostOnce(rs: seq<Reservation>, orders: seq<PayOrder>, c: CacheView, reservationId: Option<int>)
    ensures var e := CancelTimeoutSpec(rs, orders, c, reservationId);
      CancelTimeoutSpec(e.reservations, e.payOrders, e.cache, reservationId) == e
  {
  }

  /** Cancellation keeps the store's uniqueness of slot-holding reservations. */
  lemma CancelKeepsUniqueSlots(rs: seq<Reservation>, orders: seq<PayOrder>, c: CacheView, userId: Option<int>, reservationId: Option<int>)
    requires UniqueActiveSlots(rs)
    ensures UniqueActiveSlots(CancelSpec(rs, orders, c, userId, reservationId).reservations)
    ensures UniqueActiveSlots(CancelTimeoutSpec(rs, orders, c, reservationId).reservations)
  {
    if reservationId.Some? && IsId(rs, reservationId.value) {
      SetStatusKeepsUnique(rs, reservationId.value - 1, Cancelled);
    }
  }

  method ClosePayingOrders(db: Db, reservationId: int)
    modifies db
    ensures db.payOrders == CloseOrders(old(db.payOrders), reservationId)
    ensures db.reservations == old(db.reservations) && db.slots == old(db.slots)
    ensures db.courts == old(db.courts) && db.sessions == old(db.sessions)
  {
    db.payOrders := CloseOrders(db.payOrders, reservationId);
  }

  /** releaseReserveResource. */
  method ReleaseReserveResource(cache: Cache, userId: int, slotId: int)
    modifies cache
    ensures cache.View() == ReleaseReserveResourceSpec(old(cache.View()), userId, slotId)
  {
    cache.RemoveMember(slotId, userId);
    if slotId in cache.permits {
      cache.ReleasePermit(slotId);
    }
  }

  method Cancel(db: Db, cache: Cache, userId: Option<int>, reservationId: Option<int>) returns (r: Result<()>)
    modifies db, cache
    ensures Effect(r, db.reservations, db.payOrders, cache.View())
         == CancelSpec(old(db.reservations), old(db.payOrders), old(cache.View()), userId, reservationId)
    ensures db.slots == old(db.slots) && db.courts == old(db.courts) && db.sessions == old(db.sessions)
  {
    if userId.None? || reservationId.None? {
      return Err(ParamError);
    }
    var id := reservationId.value;
    if !OwnedBy(db.reservations, id, userId.value) {
      return Err(ParamError);
    }
    var reservation := db.reservations[id - 1];
    if reservation.status != PendingPayment {
      return Err(ParamError);
    }
    db.reservations := SetStatus(db.reservations, id - 1, Cancelled);
    ClosePayingOrders(db, id);
    ReleaseReserveResource(cache, userId.value, reservation.slotId);
    return Ok(());
  }

  method CancelTimeoutPending(db: Db, cache: Cache, reservationId: Option<int>)
    modifies db, cache
    ensures Effect(Ok(()), db.reservations, db.payOrders, cache.View())
         == CancelTimeoutSpec(old(db.reservations), old(db.payOrders), old(cache.View()), reservationId)
    ensures db.slots == old(db.slots) && db.courts == old(db.courts) && db.sessions == old(db.sessions)
  {
    if reservationId.None? {
      return;
    }
    var id := reservationId.value;
    if !IsId(db.reservations, id) || db.reservations[id - 1].status != PendingPayment {
      return;
    }
    var reservation := db.reservations[id - 1];
    db.reservations := SetStatus(db.reservations, id - 1, Cancelled);
    ClosePayingOrders(db, id);
    ReleaseReserveResource(cache, reservation.userId, reservation.slotId);
  }
}
