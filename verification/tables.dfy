/** The in-memory stand-in for the relational store: one sequence per table. Row i of a
    table has id i + 1 (ids are auto-increment and rows are never physically removed;
    courts and time slots are deleted logically through their active flag). */
module Tables {
  import opened Common

  datatype Reservation = Reservation(
    userId: int,
    slotId: int,
    traceId: Option<string>,
    status: ReservationStatus,
    createTime: Instant)

  /** Amounts are integers in the smallest currency unit; every order is a WeChat order. */
  datatype PayOrder = PayOrder(
    reservationId: int,
    outTradeNo: string,
    amount: int,
    status: PayOrderStatus,
    expireTime: Option<Instant>)

  datatype TimeSlot = TimeSlot(
    slotDate: Option<Date>,
    startTime: TimeOfDay,
    endTime: TimeOfDay,
    courtId: int,
    sessionId: int,
    active: bool)

  datatype FlashSession = FlashSession(
    flashTime: Option<TimeOfDay>,
    beginTime: TimeOfDay,
    endTime: TimeOfDay,
    slotInterval: int)

  datatype Court = Court(name: string, active: bool)

  predicate IsId<T>(rows: seq<T>, id: int) {
    1 <= id <= |rows|
  }

  /** Statuses that hold the slot: the store's generated column makes a reservation's
      slot id unique among rows in these statuses. */
  predicate HoldsSlot(s: ReservationStatus) {
    s == PendingPayment || s == Confirmed
  }

  predicate UniqueActiveSlots(rs: seq<Reservation>) {
    forall i, j :: 0 <= i < j < |rs| && HoldsSlot(rs[i].status) && HoldsSlot(rs[j].status)
      ==> rs[i].slotId != rs[j].slotId
  }

  /** The indices of the rows satisfying p, in increasing order. */
  function Indices<T>(rows: seq<T>, p: T -> bool): (r: seq<nat>)
    ensures forall k :: 0 <= k < |r| ==> r[k] < |rows| && p(rows[r[k]])
    ensures forall i :: 0 <= i < |rows| && p(rows[i]) ==> i in r
    ensures forall k, l :: 0 <= k < l < |r| ==> r[k] < r[l]
  {
    if |rows| == 0 then []
    else
      var front := Indices(rows[..|rows| - 1], p);
      assert forall i :: 0 <= i < |rows| - 1 ==> rows[..|rows| - 1][i] == rows[i];
      if p(rows[|rows| - 1]) then front + [|rows| - 1] else front
  }

  /** A selectOne query: no row, exactly one row, or more than one (which the mapper
      reports as an exception). */
  datatype Lookup = NotFound | Found(index: nat) | TooMany

  function SelectOne<T>(rows: seq<T>, p: T -> bool): (r: Lookup)
    ensures r.NotFound? <==> forall i :: 0 <= i < |rows| ==> !p(rows[i])
    ensures r.Found? ==> r.index < |rows| && p(rows[r.index])
    ensures r.Found? ==> forall i :: 0 <= i < |rows| && p(rows[i]) ==> i == r.index
    ensures r.TooMany? <==> exists i, j :: 0 <= i < j < |rows| && p(rows[i]) && p(rows[j])
  {
    var ix := Indices(rows, p);
    if |ix| == 0 then NotFound
    else if |ix| == 1 then Found(ix[0])
    else
      assert ix[0] < ix[1];
      TooMany
  }

  /** The reservation with this id, if it belongs to this user. */
  predicate OwnedBy(rs: seq<Reservation>, id: int, userId: int) {
    IsId(rs, id) && rs[id - 1].userId == userId
  }

  /** The conditional update closing every PAYING order of a reservation. */
  function CloseOrders(orders: seq<PayOrder>, reservationId: int): (r: seq<PayOrder>)
    ensures |r| == |orders|
    ensures forall i :: 0 <= i < |orders| ==>
      r[i] == if orders[i].reservationId == reservationId && orders[i].status == Paying
              then orders[i].(status := Closed) else orders[i]
  {
    seq(|orders|, i requires 0 <= i < |orders| =>
      if orders[i].reservationId == reservationId && orders[i].status == Paying
      then orders[i].(status := Closed) else orders[i])
  }

  /** After the update no order of that reservation is still PAYING, and orders of other
      reservations are untouched. */
  lemma CloseOrdersEffect(orders: seq<PayOrder>, reservationId: int)
    ensures forall i :: 0 <= i < |orders| && orders[i].reservationId == reservationId ==>
              CloseOrders(orders, reservationId)[i].status != Paying
    ensures forall i :: 0 <= i < |orders| && orders[i].reservationId != reservationId ==>
              CloseOrders(orders, reservationId)[i] == orders[i]
  {
  }

  function SetStatus(rs: seq<Reservation>, index: nat, s: ReservationStatus): (r: seq<Reservation>)
    requires index < |rs|
    ensures |r| == |rs| && r[index].status == s
    ensures forall i :: 0 <= i < |rs| && i != index ==> r[i] == rs[i]
  {
    rs[index := rs[index].(status := s)]
  }

  /** Moving a row to CANCELLED, or between the two slot-holding statuses, keeps the
      slot uniqueness of the holding rows. */
  lemma SetStatusKeepsUnique(rs: seq<Reservation>, index: nat, s: ReservationStatus)
    requires index < |rs| && UniqueActiveSlots(rs)
    requires !HoldsSlot(s) || HoldsSlot(rs[index].status)
    ensures UniqueActiveSlots(SetStatus(rs, index, s))
  {
    var r := SetStatus(rs, index, s);
    forall i, j | 0 <= i < j < |r| && HoldsSlot(r[i].status) && HoldsSlot(r[j].status)
      ensures r[i].slotId != r[j].slotId
    {
      assert HoldsSlot(rs[i].status) && HoldsSlot(rs[j].status);
    }
  }

  predicate StrictlyIncreasing(xs: seq<int>) {
    forall k, l :: 0 <= k < l < |xs| ==> xs[k] < xs[l]
  }

  /** Two strictly increasing sequences with the same elements are equal. */
  lemma {:induction false} IncreasingUnique(a: seq<int>, b: seq<int>)
    requires StrictlyIncreasing(a) && StrictlyIncreasing(b)
    requires forall x :: x in a <==> x in b
    ensures a == b
  {
    if |a| == 0 {
      EmptyOrHeadIn(b);
    } else {
      assert a[|a| - 1] in a;
      assert |b| > 0;
      assert b[|b| - 1] in a;
      DropLast(a);
      DropLast(b);
      var fa, fb := a[..|a| - 1], b[..|b| - 1];
      assert a[|a| - 1] == b[|b| - 1];
      forall x
        ensures x in fa <==> x in fb
      {
        assert x in fa <==> x in a && x < a[|a| - 1];
        assert x in fb <==> x in b && x < b[|b| - 1];
      }
      IncreasingUnique(fa, fb);
      assert a == fa + [a[|a| - 1]] && b == fb + [b[|b| - 1]];
    }
  }

  /** A sequence is empty or holds its first element. */
  lemma EmptyOrHeadIn(b: seq<int>)
    ensures |b| == 0 || b[0] in b
  {
  }

  /** Dropping the last element of an increasing sequence leaves an increasing sequence
      of exactly the elements below the last one, which bounds them all. */
  lemma DropLast(a: seq<int>)
    requires StrictlyIncreasing(a) && |a| > 0
    ensures StrictlyIncreasing(a[..|a| - 1])
    ensures forall x :: x in a ==> x <= a[|a| - 1]
    ensures forall x :: x in a[..|a| - 1] <==> x in a && x < a[|a| - 1]
  {
    var front := a[..|a| - 1];
    forall x | x in a
      ensures x <= a[|a| - 1]
    {
      var i :| 0 <= i < |a| && a[i] == x;
    }
    forall x | x in a && x < a[|a| - 1]
      ensures x in front
    {
      var i :| 0 <= i < |a| && a[i] == x;
      assert front[i] == x;
    }
  }

  /** The ids of the active courts in id order: what the court queries return. */
  function ActiveCourtIds(courts: seq<Court>): (ids: seq<int>)
    ensures forall k :: 0 <= k < |ids| ==> IsId(courts, ids[k]) && courts[ids[k] - 1].active
  {
    if |courts| == 0 then []
    else
      var front := ActiveCourtIds(courts[..|courts| - 1]);
      assert forall k :: 0 <= k < |front| ==> courts[..|courts| - 1][front[k] - 1] == courts[front[k] - 1];
      if courts[|courts| - 1].active then front + [|courts|] else front
  }

  /** Every active court is listed, and the list is in increasing id order. */
  lemma {:induction false} ActiveCourtIdsComplete(courts: seq<Court>)
    ensures var ids := ActiveCourtIds(courts);
      && (forall i :: 0 <= i < |courts| && courts[i].active ==> i + 1 in ids)
      && StrictlyIncreasing(ids)
  {
    if |courts| > 0 {
      var front := courts[..|courts| - 1];
      ActiveCourtIdsComplete(front);
      assert forall i :: 0 <= i < |front| ==> front[i] == courts[i];
      ActiveCourtIdsCompleteStep(courts, ActiveCourtIds(front));
    }
  }

  lemma ActiveCourtIdsCompleteStep(courts: seq<Court>, front: seq<int>)
    requires |courts| > 0 && front == ActiveCourtIds(courts[..|courts| - 1])
    requires forall i :: 0 <= i < |courts| - 1 && courts[i].active ==> i + 1 in front
    requires StrictlyIncreasing(front)
    ensures var ids := ActiveCourtIds(courts);
      && (forall i :: 0 <= i < |courts| && courts[i].active ==> i + 1 in ids)
      && StrictlyIncreasing(ids)
  {
    var n := |courts|;
    var ids := ActiveCourtIds(courts);
    assert ids == if courts[n - 1].active then front + [n] else front;
    forall i | 0 <= i < n && courts[i].active
      ensures i + 1 in ids
    {
      if i < n - 1 {
        assert i + 1 in front;
      } else {
        assert ids[|ids| - 1] == n;
      }
    }
    if courts[n - 1].active {
      forall k | 0 <= k < |front|
        ensures front[k] < n
      {
        assert IsId(courts[..n - 1], front[k]);
      }
      IncreasingAppend(front, n);
    }
  }

  /** Appending an element above all others keeps a sequence increasing. */
  lemma IncreasingAppend(xs: seq<int>, x: int)
    requires StrictlyIncreasing(xs) && forall k :: 0 <= k < |xs| ==> xs[k] < x
    ensures StrictlyIncreasing(xs + [x])
  {
    var ys := xs + [x];
    forall k, l | 0 <= k < l < |ys|
      ensures ys[k] < ys[l]
    {
      assert ys[k] == xs[k];
    }
  }

  lemma ActiveCourtIdsMember(courts: seq<Court>, y: int)
    ensures y in ActiveCourtIds(courts) <==> IsId(courts, y) && courts[y - 1].active
  {
    ActiveCourtIdsComplete(courts);
    if IsId(courts, y) && courts[y - 1].active {
      assert (y - 1) + 1 in ActiveCourtIds(courts);
    }
  }

  /** The active ids are the only increasing enumeration of the active rows. */
  lemma ActiveCourtIdsUnique(courts: seq<Court>, ids: seq<int>)
    requires StrictlyIncreasing(ids)
    requires forall x :: x in ids <==> IsId(courts, x) && courts[x - 1].active
    ensures ActiveCourtIds(courts) == ids
  {
    var a := ActiveCourtIds(courts);
    ActiveCourtIdsComplete(courts);
    forall x
      ensures x in a <==> x in ids
    {
      if x in a {
        var k :| 0 <= k < |a| && a[k] == x;
      }
      if x in ids {
        assert courts[x - 1].active;
        assert (x - 1) + 1 in a;
      }
    }
    IncreasingUnique(a, ids);
  }

  /** A court appended active gets the next id and comes last. */
  lemma ActiveCourtIdsAppend(courts: seq<Court>, c: Court)
    requires c.active
    ensures ActiveCourtIds(courts + [c]) == ActiveCourtIds(courts) + [|courts| + 1]
  {
    assert (courts + [c])[..|courts|] == courts;
  }

  /** The active flags of the table, row by row. */
  function ActiveFlags(courts: seq<Court>): (flags: seq<bool>)
    ensures |flags| == |courts|
  {
    seq(|courts|, k requires 0 <= k < |courts| => courts[k].active)
  }

  /** The active ids depend on the active flags only. */
  lemma ActiveCourtIdsOfFlags(a: seq<Court>, b: seq<Court>)
    requires ActiveFlags(a) == ActiveFlags(b)
    ensures ActiveCourtIds(a) == ActiveCourtIds(b)
  {
    forall i | 0 <= i < |a|
      ensures a[i].active == b[i].active
    {
      assert ActiveFlags(a)[i] == ActiveFlags(b)[i];
    }
    ActiveCourtIdsComplete(b);
    forall x
      ensures x in ActiveCourtIds(b) <==> IsId(a, x) && a[x - 1].active
    {
      ActiveCourtIdsMember(b, x);
    }
    ActiveCourtIdsUnique(a, ActiveCourtIds(b));
  }

  /** Renaming a court does not change which courts are active. */
  lemma ActiveCourtIdsRename(courts: seq<Court>, i: nat, name: string)
    requires i < |courts|
    ensures ActiveCourtIds(courts[i := courts[i].(name := name)]) == ActiveCourtIds(courts)
  {
    var renamed := courts[i := courts[i].(name := name)];
    ActiveCourtIdsComplete(courts);
    forall x
      ensures x in ActiveCourtIds(courts) <==> IsId(renamed, x) && renamed[x - 1].active
    {
      ActiveCourtIdsMember(courts, x);
    }
    ActiveCourtIdsUnique(renamed, ActiveCourtIds(courts));
  }

  /** Dropping one element keeps a sequence increasing. */
  lemma DropKeepsIncreasing(ids: seq<int>, p: nat)
    requires p < |ids| && StrictlyIncreasing(ids)
    ensures StrictlyIncreasing(ids[..p] + ids[p + 1..])
    ensures forall y :: y in ids[..p] + ids[p + 1..] <==> y in ids && y != ids[p]
  {
    var rest := ids[..p] + ids[p + 1..];
    assert forall k :: 0 <= k < |rest| ==> rest[k] == if k < p then ids[k] else ids[k + 1];
    forall y
      ensures y in rest <==> y in ids && y != ids[p]
    {
      if y in ids && y != ids[p] {
        var k :| 0 <= k < |ids| && ids[k] == y;
        if k < p {
          assert rest[k] == y;
        } else {
          assert rest[k - 1] == y;
        }
      }
    }
  }

  /** Deleting the active court at position p of the active ids removes exactly it. */
  lemma ActiveCourtIdsDelete(courts: seq<Court>, p: nat, x: int)
    requires p < |ActiveCourtIds(courts)| && ActiveCourtIds(courts)[p] == x
    ensures IsId(courts, x)
    ensures var ids := ActiveCourtIds(courts);
      ActiveCourtIds(courts[x - 1 := courts[x - 1].(active := false)]) == ids[..p] + ids[p + 1..]
  {
    var ids := ActiveCourtIds(courts);
    var deleted := courts[x - 1 := courts[x - 1].(active := false)];
    var rest := ids[..p] + ids[p + 1..];
    ActiveCourtIdsComplete(courts);
    DropKeepsIncreasing(ids, p);
    forall y
      ensures y in rest <==> IsId(deleted, y) && deleted[y - 1].active
    {
      ActiveCourtIdsMember(courts, y);
    }
    ActiveCourtIdsUnique(deleted, rest);
  }

  predicate PositiveIntervals(sessions: seq<FlashSession>) {
    forall s :: s in sessions ==> s.slotInterval > 0
  }

  /** The relational store. Sessions are only read by the modelled operations. */
  class Db {
    var reservations: seq<Reservation>
    var payOrders: seq<PayOrder>
    var slots: seq<TimeSlot>
    var courts: seq<Court>
    var sessions: seq<FlashSession>

    /** Every stored session passed the session validation's interval check. */
    predicate Valid()
      reads this
    {
      PositiveIntervals(sessions)
    }

    constructor (sessions: seq<FlashSession>)
      requires PositiveIntervals(sessions)
      ensures Valid()
      ensures this.sessions == sessions
      ensures reservations == [] && payOrders == [] && slots == [] && courts == []
    {
      this.sessions := sessions;
      reservations, payOrders, slots, courts := [], [], [], [];
    }
  }

  /** selectById on the session table. */
  function SessionById(sessions: seq<FlashSession>, id: int): (r: Option<FlashSession>)
    ensures r.Some? <==> IsId(sessions, id)
    ensures r.Some? ==> r.value == sessions[id - 1]
  {
    if IsId(sessions, id) then Some(sessions[id - 1]) else None
  }
}
