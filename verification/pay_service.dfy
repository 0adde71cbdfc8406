/** PayServiceImpl: the pay-order state machine around a reservation. Orders are created
    PAYING with an expiry, an unexpired PAYING order is reused, a mock payment moves the
    order to SUCCESS and the reservation to CONFIRMED, and a refund moves them to REFUNDED
    and CANCELLED and gives the slot back to the cache. */
module PayService {
  import opened Common
  import opened Decimal
  import opened Tables
  import opened CacheStore

  /** The highest-indexed order satisfying p: the first row of a query ordered by id
      descending. */
  function Latest(orders: seq<PayOrder>, p: PayOrder -> bool): (r: Option<nat>)
    ensures r.None? <==> forall i :: 0 <= i < |orders| ==> !p(orders[i])
    ensures r.Some? ==> r.value < |orders| && p(orders[r.value])
    ensures r.Some? ==> forall i :: r.value < i < |orders| ==> !p(orders[i])
  {
    if |orders| == 0 then None
    else if p(orders[|orders| - 1]) then Some(|orders| - 1)
    else Latest(orders[..|orders| - 1], p)
  }

  predicate PayingOf(o: PayOrder, reservationId: int) {
    o.reservationId == reservationId && o.status == Paying
  }

  predicate SucceededOf(o: PayOrder, reservationId: int) {
    o.reservationId == reservationId && o.status == Success
  }

  predicate OrderOf(o: PayOrder, reservationId: int) {
    o.reservationId == reservationId
  }

  /** LocalDateTime.isBefore on a nullable expiry. */
  predicate Expired(o: PayOrder, now: Instant) {
    o.expireTime.Some? && o.expireTime.value < now
  }

  /** The pay-order table and the reservation table after an operation. */
  datatype Ledger = Ledger(result: Result<string>, payOrders: seq<PayOrder>, reservations: seq<Reservation>)

  // ---------------------------------------------------------------------------------
  // createWechatPay

  /** createWechatPay: without the per-reservation lock it fails; only the caller's
      PENDING_PAYMENT reservation can be paid. The latest PAYING order is reused unless it
      has expired, in which case it is marked FAILED and a new PAYING order is created
      with the configured amount and an expiry of now plus the configured timeout. An
      unparsable timeout throws and a non-positive or unparsable amount is a parameter
      error; either rolls back the FAILED mark. The answer is the order's trade number. */
  function CreateSpec(orders: seq<PayOrder>, rs: seq<Reservation>, userId: int, reservationId: int, locked: bool,
                      now: Instant, timeoutText: Option<string>, amount: Option<int>, outTradeNo: string): Ledger
  {
    if !locked then Ledger(Err(Code.Failed), orders, rs)
    else if !OwnedBy(rs, reservationId, userId) || rs[reservationId - 1].status != PendingPayment then
      Ledger(Err(ParamError), orders, rs)
    else
      var latest := Latest(orders, (o: PayOrder) => PayingOf(o, reservationId));
      if latest.Some? && !Expired(orders[latest.value], now) then
        Ledger(Ok(orders[latest.value].outTradeNo), orders, rs)
      else
        var marked := if latest.Some? then orders[latest.value := orders[latest.value].(status := PayOrderStatus.Failed)] else orders;
        var timeout := if timeoutText.None? then None else ParseInt(timeoutText.value);
        if timeout.None? then Ledger(Err(Unexpected), orders, rs)
        else if amount.None? || amount.value <= 0 then Ledger(Err(ParamError), orders, rs)
        else
          var order := PayOrder(reservationId, outTradeNo, amount.value, Paying, Some(PlusMinutesAt(now, timeout.value)));
          Ledger(Ok(outTradeNo), marked + [order], rs)
  }

  /** At most one PAYING order per reservation. */
  predicate SinglePaying(orders: seq<PayOrder>) {
    forall i, j :: 0 <= i < j < |orders| && orders[i].status == Paying && orders[j].status == Paying
      ==> orders[i].reservationId != orders[j].reservationId
  }

  /** The outcomes of createWechatPay: the lock and ownership failures, reuse of an
      unexpired PAYING order with nothing written, and creation of exactly one new PAYING
      order, with the amount and expiry, after the expired one was marked FAILED. The
      reservation table is never changed. */
  lemma CreateOutcomes(orders: seq<PayOrder>, rs: seq<Reservation>, userId: int, reservationId: int, locked: bool,
                       now: Instant, timeoutText: Option<string>, amount: Option<int>, outTradeNo: string)
    ensures var l := CreateSpec(orders, rs, userId, reservationId, locked, now, timeoutText, amount, outTradeNo);
      && l.reservations == rs
      && (!locked ==> l.result == Err(Code.Failed))
      && (locked && !(OwnedBy(rs, reservationId, userId) && rs[reservationId - 1].status == PendingPayment) ==>
            l.result == Err(ParamError))
      && (l.result.Err? ==> l.payOrders == orders)
      && (l.result.Ok? && l.payOrders == orders ==>
            exists i :: 0 <= i < |orders| && PayingOf(orders[i], reservationId) && !Expired(orders[i], now)
                        && orders[i].outTradeNo == l.result.value)
      && (l.result.Ok? && l.payOrders != orders ==>
            && |l.payOrders| == |orders| + 1
            && l.payOrders[|orders|].outTradeNo == outTradeNo == l.result.value
            && l.payOrders[|orders|].reservationId == reservationId
            && l.payOrders[|orders|].status == Paying
            && amount.Some? && amount.value > 0 && l.payOrders[|orders|].amount == amount.value
            && timeoutText.Some? && ParseInt(timeoutText.value).Some?
            && l.payOrders[|orders|].expireTime == Some(now + 60 * ParseInt(timeoutText.value).value)
            && (forall i :: 0 <= i < |orders| && !PayingOf(orders[i], reservationId) ==> l.payOrders[i] == orders[i])
            && (forall i :: 0 <= i < |orders| && PayingOf(orders[i], reservationId) ==>
                  l.payOrders[i] == orders[i] || (Expired(orders[i], now) && l.payOrders[i] == orders[i].(status := PayOrderStatus.Failed))))
  {
  }

  /** Creation keeps at most one PAYING order per reservation: it either reuses the one
      there is or replaces the expired one. */
  lemma CreateKeepsSinglePaying(orders: seq<PayOrder>, rs: seq<Reservation>, userId: int, reservationId: int, locked: bool,
                                now: Instant, timeoutText: Option<string>, amount: Option<int>, outTradeNo: string)
    requires SinglePaying(orders)
    ensures SinglePaying(CreateSpec(orders, rs, userId, reservationId, locked, now, timeoutText, amount, outTradeNo).payOrders)
  {
    var l := CreateSpec(orders, rs, userId, reservationId, locked, now, timeoutText, amount, outTradeNo);
    if l.payOrders != orders {
      var t := l.payOrders;
      var latest := Latest(orders, (o: PayOrder) => PayingOf(o, reservationId));
      assert forall i :: 0 <= i < |orders| ==> (PayingOf(orders[i], reservationId) ==> latest.Some?);
      forall i, j | 0 <= i < j < |t| && t[i].status == Paying && t[j].status == Paying
        ensures t[i].reservationId != t[j].reservationId
      {
        if j == |orders| {
          if latest.Some? {
            var m := latest.value;
            assert i != m;
            assert t[i] == orders[i];
            if i < m {
              assert orders[i].reservationId != orders[m].reservationId;
            }
          } else {
            assert t[i] == orders[i];
          }
        } else {
          assert t[i] == orders[i] && t[j] == orders[j];
        }
      }
    }
  }

  /** A second creation right after a successful one reuses the order it made, as long as
      that order has not expired. */
  lemma CreateTwiceReuses(orders: seq<PayOrder>, rs: seq<Reservation>, userId: int, reservationId: int,
                          now: Instant, later: Instant, timeoutText: Option<string>, amount: Option<int>,
                          outTradeNo: string, outTradeNo2: string)
    requires SinglePaying(orders)
    requires CreateSpec(orders, rs, userId, reservationId, true, now, timeoutText, amount, outTradeNo).result.Ok?
    requires var l := CreateSpec(orders, rs, userId, reservationId, true, now, timeoutText, amount, outTradeNo);
      var p := Latest(l.payOrders, (o: PayOrder) => PayingOf(o, reservationId));
      p.Some? && !Expired(l.payOrders[p.value], later)
    ensures var l := CreateSpec(orders, rs, userId, reservationId, true, now, timeoutText, amount, outTradeNo);
      CreateSpec(l.payOrders, l.reservations, userId, reservationId, true, later, timeoutText, amount, outTradeNo2)
        == Ledger(l.result, l.payOrders, l.reservations)
  {
    var l := CreateSpec(orders, rs, userId, reservationId, true, now, timeoutText, amount, outTradeNo);
    var p := (o: PayOrder) => PayingOf(o, reservationId);
    var latest := Latest(orders, p);
    if l.payOrders != orders {
      assert p(l.payOrders[|orders|]);
      assert Latest(l.payOrders, p) == Some(|orders|);
    } else {
      assert latest.Some?;
      assert Latest(l.payOrders, p) == latest;
    }
  }

  method CreateWechatPay(db: Db, userId: int, reservationId: int, locked: bool, now: Instant,
                         timeoutText: Option<string>, amount: Option<int>, outTradeNo: string) returns (r: Result<string>)
    modifies db
    ensures Ledger(r, db.payOrders, db.reservations)
         == CreateSpec(old(db.payOrders), old(db.reservations), userId, reservationId, locked, now, timeoutText, amount, outTradeNo)
    ensures db.slots == old(db.slots) && db.courts == old(db.courts) && db.sessions == old(db.sessions)
  {
    if !locked {
      return Err(Code.Failed);
    }
    if !OwnedBy(db.reservations, reservationId, userId) || db.reservations[reservationId - 1].status != PendingPayment {
      return Err(ParamError);
    }
    var latest := Latest(db.payOrders, (o: PayOrder) => PayingOf(o, reservationId));
    if latest.Some? && !Expired(db.payOrders[latest.value], now) {
      return Ok(db.payOrders[latest.value].outTradeNo);
    }
    var marked := db.payOrders;
    if latest.Some? {
      marked := marked[latest.value := marked[latest.value].(status := PayOrderStatus.Failed)];
    }
    var timeout := if timeoutText.None? then None else ParseInt(timeoutText.value);
    if timeout.None? {
      return Err(Unexpected);
    }
    if amount.None? || amount.value <= 0 {
      return Err(ParamError);
    }
    var order := PayOrder(reservationId, outTradeNo, amount.value, Paying, Some(PlusMinutesAt(now, timeout.value)));
    db.payOrders := marked + [order];
    return Ok(outTradeNo);
  }

  // ---------------------------------------------------------------------------------
  // mockWechatPaySuccess

  predicate WithTradeNo(o: PayOrder, outTradeNo: string) {
    o.outTradeNo == outTradeNo
  }

  /** mockWechatPaySuccess: the order with the trade number must exist and belong to a
      reservation of the caller. An order already in SUCCESS is left alone; otherwise the
      reservation must be PENDING_PAYMENT, and a PAYING order then goes to SUCCESS with the
      reservation going to CONFIRMED; an order in any other status is left alone. The
      answer carries no value: the empty string stands for it. */
  function MockSuccessSpec(orders: seq<PayOrder>, rs: seq<Reservation>, userId: int, outTradeNo: string): Ledger {
    match SelectOne(orders, (o: PayOrder) => WithTradeNo(o, outTradeNo)) {
      case NotFound => Ledger(Err(ParamError), orders, rs)
      case TooMany => Ledger(Err(Unexpected), orders, rs)
      case Found(k) =>
        var rid := orders[k].reservationId;
        if !OwnedBy(rs, rid, userId) then Ledger(Err(ParamError), orders, rs)
        else if orders[k].status == Success then Ledger(Ok(""), orders, rs)
        else if rs[rid - 1].status != PendingPayment then Ledger(Err(ParamError), orders, rs)
        else if orders[k].status != Paying then Ledger(Ok(""), orders, rs)
        else Ledger(Ok(""), orders[k := orders[k].(status := Success)], SetStatus(rs, rid - 1, Confirmed))
    }
  }

  /** The order with this trade number is the only one, it is PAYING, and its reservation
      is the caller's and pending. */
  predicate Payable(orders: seq<PayOrder>, rs: seq<Reservation>, userId: int, outTradeNo: string, k: int) {
    && 0 <= k < |orders| && WithTradeNo(orders[k], outTradeNo)
    && (forall j :: 0 <= j < |orders| && WithTradeNo(orders[j], outTradeNo) ==> j == k)
    && orders[k].status == Paying && OwnedBy(rs, orders[k].reservationId, userId)
    && rs[orders[k].reservationId - 1].status == PendingPayment
  }

  /** A payment is recorded exactly when the order is payable; it changes that order to
      SUCCESS and its reservation to CONFIRMED and nothing else, keeping slot-holding
      reservations unique. */
  lemma MockSuccessConfirms(orders: seq<PayOrder>, rs: seq<Reservation>, userId: int, outTradeNo: string)
    requires UniqueActiveSlots(rs)
    ensures var l := MockSuccessSpec(orders, rs, userId, outTradeNo);
      && (l.payOrders != orders <==> exists k :: Payable(orders, rs, userId, outTradeNo, k))
      && (forall k :: Payable(orders, rs, userId, outTradeNo, k) ==>
            && l.payOrders == orders[k := orders[k].(status := Success)]
            && l.reservations == SetStatus(rs, orders[k].reservationId - 1, Confirmed))
      && (l.payOrders == orders ==> l.reservations == rs)
      && (l.result.Err? ==> l.payOrders == orders)
      && UniqueActiveSlots(l.reservations)
  {
    var p := (o: PayOrder) => WithTradeNo(o, outTradeNo);
    var look := SelectOne(orders, p);
    assert forall j :: 0 <= j < |orders| ==> (p(orders[j]) <==> WithTradeNo(orders[j], outTradeNo));
    if look.Found? {
      var k := look.index;
      if Payable(orders, rs, userId, outTradeNo, k) {
        SetStatusKeepsUnique(rs, orders[k].reservationId - 1, Confirmed);
        assert orders[k := orders[k].(status := Success)][k] != orders[k];
      }
    }
  }

  /** Repeating a mock payment changes nothing more. */
  lemma MockSuccessIdempotent(orders: seq<PayOrder>, rs: seq<Reservation>, userId: int, outTradeNo: string)
    ensures var l := MockSuccessSpec(orders, rs, userId, outTradeNo);
      MockSuccessSpec(l.payOrders, l.reservations, userId, outTradeNo) == Ledger(l.result, l.payOrders, l.reservations)
  {
    var p := (o: PayOrder) => WithTradeNo(o, outTradeNo);
    var look := SelectOne(orders, p);
    var l := MockSuccessSpec(orders, rs, userId, outTradeNo);
    if l.payOrders != orders {
      var k := look.index;
      var t := l.payOrders;
      assert forall j :: 0 <= j < |t| ==> (p(t[j]) <==> p(orders[j]));
      assert SelectOne(t, p) == Found(k);
    }
  }

  method MockWechatPaySuccess(db: Db, userId: int, outTradeNo: string) returns (r: Result<string>)
    modifies db
    ensures Ledger(r, db.payOrders, db.reservations) == MockSuccessSpec(old(db.payOrders), old(db.reservations), userId, outTradeNo)
    ensures db.slots == old(db.slots) && db.courts == old(db.courts) && db.sessions == old(db.sessions)
  {
    var look := SelectOne(db.payOrders, (o: PayOrder) => WithTradeNo(o, outTradeNo));
    match look {
      case NotFound => return Err(ParamError);
      case TooMany => return Err(Unexpected);
      case Found(k) =>
        var rid := db.payOrders[k].reservationId;
        if !OwnedBy(db.reservations, rid, userId) {
          return Err(ParamError);
        }
        if db.payOrders[k].status == Success {
          return Ok("");
        }
        if db.reservations[rid - 1].status != PendingPayment {
          return Err(ParamError);
        }
        if db.payOrders[k].status != Paying {
          return Ok("");
        }
        db.payOrders := db.payOrders[k := db.payOrders[k].(status := Success)];
        db.reservations := SetStatus(db.reservations, rid - 1, Confirmed);
        return Ok("");
    }
  }

  // ---------------------------------------------------------------------------------
  // refund

  /** What refund leaves, the cache included. */
  datatype Refunding = Refunding(result: Result<()>, payOrders: seq<PayOrder>, reservations: seq<Reservation>, cache: CacheView)

  /** refund: only the caller's reservation; a CANCELLED one is a no-op, any status other
      than CONFIRMED is a parameter error, and so is a reservation without a SUCCESS order.
      Otherwise the latest SUCCESS order goes to REFUNDED, the reservation to CANCELLED,
      and the caller leaves the slot's dedup set while an existing semaphore regains a
      permit. */
  function RefundSpec(orders: seq<PayOrder>, rs: seq<Reservation>, c: CacheView, userId: int, reservationId: int): Refunding {
    if !OwnedBy(rs, reservationId, userId) then Refunding(Err(ParamError), orders, rs, c)
    else if rs[reservationId - 1].status == Cancelled then Refunding(Ok(()), orders, rs, c)
    else if rs[reservationId - 1].status != Confirmed then Refunding(Err(ParamError), orders, rs, c)
    else match Latest(orders, (o: PayOrder) => SucceededOf(o, reservationId)) {
      case None => Refunding(Err(ParamError), orders, rs, c)
      case Some(k) =>
        Refunding(Ok(()), orders[k := orders[k].(status := PayOrderStatus.Refunded)], SetStatus(rs, reservationId - 1, Cancelled),
                 ReleaseReserveResourceSpec(c, userId, rs[reservationId - 1].slotId))
    }
  }

  /** A refund goes through exactly on the caller's CONFIRMED reservation with a SUCCESS
      order; it then refunds the latest such order, cancels the reservation and gives the
      slot back. A second refund is a no-op. */
  lemma RefundReturnsSlot(orders: seq<PayOrder>, rs: seq<Reservation>, c: CacheView, userId: int, reservationId: int)
    requires UniqueActiveSlots(rs)
    ensures var f := RefundSpec(orders, rs, c, userId, reservationId);
      && (f.result.Err? ==> f.result.code == ParamError && f.payOrders == orders && f.reservations == rs && f.cache == c)
      && (f.payOrders != orders <==>
            OwnedBy(rs, reservationId, userId) && rs[reservationId - 1].status == Confirmed
            && exists i :: 0 <= i < |orders| && SucceededOf(orders[i], reservationId))
      && (f.payOrders != orders ==>
            var slotId := rs[reservationId - 1].slotId;
            && f.reservations[reservationId - 1].status == Cancelled
            && (forall i :: 0 <= i < |rs| && i != reservationId - 1 ==> f.reservations[i] == rs[i])
            && (exists k :: 0 <= k < |orders| && SucceededOf(orders[k], reservationId)
                  && (forall i :: k < i < |orders| ==> !SucceededOf(orders[i], reservationId))
                  && f.payOrders == orders[k := orders[k].(status := PayOrderStatus.Refunded)])
            && userId !in Members(f.cache, slotId)
            && (slotId in c.permits ==> f.cache.permits[slotId] == c.permits[slotId] + 1))
      && (f.payOrders == orders ==> f.reservations == rs && f.cache == c)
      && UniqueActiveSlots(f.reservations)
      && (f.result.Ok? ==> RefundSpec(f.payOrders, f.reservations, f.cache, userId, reservationId)
                           == Refunding(Ok(()), f.payOrders, f.reservations, f.cache))
  {
    var p := (o: PayOrder) => SucceededOf(o, reservationId);
    if OwnedBy(rs, reservationId, userId) && rs[reservationId - 1].status == Confirmed {
      SetStatusKeepsUnique(rs, reservationId - 1, Cancelled);
      var latest := Latest(orders, p);
      if latest.Some? {
        var k := latest.value;
        assert orders[k := orders[k].(status := PayOrderStatus.Refunded)][k] != orders[k];
      } else {
        assert forall i :: 0 <= i < |orders| ==> !p(orders[i]);
      }
    }
  }

  method Refund(db: Db, cache: Cache, userId: int, reservationId: int) returns (r: Result<()>)
    modifies db, cache
    ensures Refunding(r, db.payOrders, db.reservations, cache.View())
         == RefundSpec(old(db.payOrders), old(db.reservations), old(cache.View()), userId, reservationId)
    ensures db.slots == old(db.slots) && db.courts == old(db.courts) && db.sessions == old(db.sessions)
  {
    if !OwnedBy(db.reservations, reservationId, userId) {
      return Err(ParamError);
    }
    var reservation := db.reservations[reservationId - 1];
    if reservation.status == Cancelled {
      return Ok(());
    }
    if reservation.status != Confirmed {
      return Err(ParamError);
    }
    var latest := Latest(db.payOrders, (o: PayOrder) => SucceededOf(o, reservationId));
    if latest.None? {
      return Err(ParamError);
    }
    var k := latest.value;
    db.payOrders := db.payOrders[k := db.payOrders[k].(status := PayOrderStatus.Refunded)];
    db.reservations := SetStatus(db.reservations, reservationId - 1, Cancelled);
    cache.RemoveMember(reservation.slotId, userId);
    if reservation.slotId in cache.permits {
      cache.ReleasePermit(reservation.slotId);
    }
    return Ok(());
  }

  // ---------------------------------------------------------------------------------
  // getPayResult

  /** A PayOrderResultVO without the channel and update time: the latest order's trade
      number, status, amount and expiry when there is one, and the reservation's status. */
  datatype PayResult = PayResult(reservationId: int, outTradeNo: Option<string>, payStatus: Option<PayOrderStatus>,
                                 reservationStatus: ReservationStatus, amount: Option<int>, expireTime: Option<Instant>)

  /** getPayResult: only the caller's reservation, reported with its latest order. */
  method GetPayResult(db: Db, userId: int, reservationId: int) returns (r: Result<PayResult>)
    ensures r.Ok? <==> OwnedBy(db.reservations, reservationId, userId)
    ensures r.Err? ==> r == Err(ParamError)
    ensures r.Ok? ==> r.value.reservationId == reservationId
                      && r.value.reservationStatus == db.reservations[reservationId - 1].status
    ensures r.Ok? && r.value.outTradeNo.None? ==>
      forall i :: 0 <= i < |db.payOrders| ==> !OrderOf(db.payOrders[i], reservationId)
    ensures r.Ok? && r.value.outTradeNo.Some? ==>
      exists k :: 0 <= k < |db.payOrders| && OrderOf(db.payOrders[k], reservationId)
        && (forall i :: k < i < |db.payOrders| ==> !OrderOf(db.payOrders[i], reservationId))
        && r.value == PayResult(reservationId, Some(db.payOrders[k].outTradeNo), Some(db.payOrders[k].status),
                                db.reservations[reservationId - 1].status, Some(db.payOrders[k].amount),
                                db.payOrders[k].expireTime)
  {
    if !OwnedBy(db.reservations, reservationId, userId) {
      return Err(ParamError);
    }
    var status := db.reservations[reservationId - 1].status;
    var latest := Latest(db.payOrders, (o: PayOrder) => OrderOf(o, reservationId));
    if latest.None? {
      return Ok(PayResult(reservationId, None, None, status, None, None));
    }
    var o := db.payOrders[latest.value];
    return Ok(PayResult(reservationId, Some(o.outTradeNo), Some(o.status), status, Some(o.amount), o.expireTime));
  }
}
