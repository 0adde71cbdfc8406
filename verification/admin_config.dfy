/** AdminServiceImpl, configuration side: the check of a session against the warmup and
    generation settings, the check of the court settings, the window in which the court
    count may change, the reconciliation of the court table with the settings, and
    updateConfig, which merges submitted items into the stored settings, validates the
    result and writes it back in one transaction. */
module AdminConfig {
  import opened Common
  import opened Decimal
  import opened Tables
  import opened TimeSlots

  /** String.format(format, i) with one integer argument; None where it throws. */
  type Formatter = (string, int) -> Option<string>

  /** LocalTime.parse; None where it throws. */
  type TimeParser = string -> Option<TimeOfDay>

  const DefaultCourtNameFormat: string := "球场%d"

  // ---------------------------------------------------------------------------------
  // Sessions against the warmup and generation settings

  /** The moment a session is warmed: its flash time moved back by the warmup minutes. */
  function WarmupTime(flash: TimeOfDay, warmup: int): TimeOfDay {
    MinusMinutes(flash, warmup)
  }

  /** validConfigSession, check by check; the caller has already rejected a session
      without a flash time. */
  function SessionConfigCheck(warmup: int, generateTime: TimeOfDay, s: FlashSession): Result<()>
    requires s.flashTime.Some?
  {
    var flash := s.flashTime.value;
    if s.beginTime >= s.endTime then Err(ParamError)
    else if s.slotInterval <= 0 then Err(ParamError)
    else if Span(s) % s.slotInterval != 0 then Err(ParamError)
    else if flash > s.beginTime then Err(ParamError)
    else if warmup < 0 || warmup > flash then Err(ParamError)
    else if generateTime > WarmupTime(flash, warmup) || WarmupTime(flash, warmup) > flash then Err(ParamError)
    else Ok(())
  }

  /** A session passes exactly when generation, warmup, flash and the session window come
      in that order within the day and the window divides into whole intervals; every
      refusal is a parameter error. */
  lemma SessionConfigCheckIff(warmup: int, generateTime: TimeOfDay, s: FlashSession)
    requires s.flashTime.Some?
    ensures var r := SessionConfigCheck(warmup, generateTime, s);
      var flash := s.flashTime.value;
      && (r.Ok? <==>
           && s.beginTime < s.endTime
           && s.slotInterval > 0
           && (s.endTime - s.beginTime) % s.slotInterval == 0
           && 0 <= warmup <= flash <= s.beginTime
           && generateTime <= flash - warmup)
      && (r.Err? ==> r.code == ParamError)
  {
    var flash := s.flashTime.value;
    if 0 <= warmup <= flash {
      assert WarmupTime(flash, warmup) == flash - warmup;
    }
  }

  /** An accepted session cuts into at least one whole slot per court, so generation for
      it cannot fail on divisibility. */
  lemma AcceptedSessionGenerates(warmup: int, generateTime: TimeOfDay, s: FlashSession)
    requires s.flashTime.Some? && SessionConfigCheck(warmup, generateTime, s).Ok?
    ensures s.slotInterval > 0 && Span(s) % s.slotInterval == 0
    ensures SlotsPerCourt(s) >= 1 && SlotsPerCourt(s) * s.slotInterval == Span(s)
  {
    SessionConfigCheckIff(warmup, generateTime, s);
  }

  /** Every session has a flash time and passes the session check. */
  predicate SessionsValid(warmup: int, generateTime: TimeOfDay, sessions: seq<FlashSession>) {
    forall k :: 0 <= k < |sessions| ==>
      sessions[k].flashTime.Some? && SessionConfigCheck(warmup, generateTime, sessions[k]).Ok?
  }

  /** The session loop of updateConfig: the first session without a flash time or failing
      the session check aborts with a parameter error. */
  method CheckSessions(warmup: int, generateTime: TimeOfDay, sessions: seq<FlashSession>) returns (r: Result<()>)
    ensures r.Ok? <==> SessionsValid(warmup, generateTime, sessions)
    ensures r.Err? ==> r.code == ParamError
  {
    var i := 0;
    while i < |sessions|
      invariant 0 <= i <= |sessions|
      invariant forall k :: 0 <= k < i ==>
        sessions[k].flashTime.Some? && SessionConfigCheck(warmup, generateTime, sessions[k]).Ok?
    {
      var s := sessions[i];
      if s.flashTime.None? {
        return Err(ParamError);
      }
      var check := SessionConfigCheck(warmup, generateTime, s);
      if check.Err? {
        return check;
      }
      i := i + 1;
    }
    return Ok(());
  }

  // ---------------------------------------------------------------------------------
  // Court settings

  predicate OccursAt(s: string, sub: string, i: int) {
    0 <= i && i + |sub| <= |s| && s[i..i + |sub|] == sub
  }

  /** String.contains. */
  predicate Contains(s: string, sub: string) {
    exists i :: 0 <= i <= |s| && OccursAt(s, sub, i)
  }

  /** The format mentions %d and names courts 1..count, every name defined and no two
      equal. */
  predicate CourtConfigValid(count: int, fmt: string, format: Formatter) {
    && count >= 0
    && Contains(fmt, "%d")
    && (forall i :: 1 <= i <= count ==> format(fmt, i).Some?)
    && (forall i, j :: 1 <= i < j <= count ==> format(fmt, i) != format(fmt, j))
  }

  /** The names the format gives courts 1..n - 1. */
  function NamesUpTo(fmt: string, format: Formatter, n: int): (names: set<string>)
    requires forall j :: 1 <= j < n ==> format(fmt, j).Some?
    decreases n
  {
    if n <= 1 then {} else NamesUpTo(fmt, format, n - 1) + {format(fmt, n - 1).value}
  }

  /** The name set holds exactly the names of courts 1..n - 1. */
  lemma {:induction false} NamesUpToMembers(fmt: string, format: Formatter, n: int)
    requires forall j :: 1 <= j < n ==> format(fmt, j).Some?
    ensures forall j :: 1 <= j < n ==> format(fmt, j).value in NamesUpTo(fmt, format, n)
    ensures forall x :: x in NamesUpTo(fmt, format, n) ==> exists j :: 1 <= j < n && format(fmt, j) == Some(x)
    decreases n
  {
    if n > 1 {
      NamesUpToMembers(fmt, format, n - 1);
    }
  }

  /** No two of courts 1..n - 1 share a name. */
  predicate NamesDistinct(fmt: string, format: Formatter, n: int) {
    forall j, k :: 1 <= j < k < n ==> format(fmt, j) != format(fmt, k)
  }

  /** The name set of courts 1..n - 1 has n - 1 members exactly when no two of those
      courts share a name. */
  lemma {:induction false} NamesUpToCount(fmt: string, format: Formatter, n: int)
    requires n >= 1
    requires forall j :: 1 <= j < n ==> format(fmt, j).Some?
    ensures |NamesUpTo(fmt, format, n)| <= n - 1
    ensures |NamesUpTo(fmt, format, n)| == n - 1 <==> NamesDistinct(fmt, format, n)
    decreases n
  {
    if n > 1 {
      NamesUpToCount(fmt, format, n - 1);
      NamesUpToMembers(fmt, format, n - 1);
      if format(fmt, n - 1).value in NamesUpTo(fmt, format, n - 1) {
        var j :| 1 <= j < n - 1 && format(fmt, j) == Some(format(fmt, n - 1).value);
        NamesCountRepeat(fmt, format, n, j);
      } else {
        NamesCountFresh(fmt, format, n);
      }
    }
  }

  /** A name already given to an earlier court adds nothing and breaks distinctness. */
  lemma NamesCountRepeat(fmt: string, format: Formatter, n: int, j: int)
    requires n > 1 && forall i :: 1 <= i < n ==> format(fmt, i).Some?
    requires 1 <= j < n - 1 && format(fmt, j) == format(fmt, n - 1)
    requires format(fmt, n - 1).value in NamesUpTo(fmt, format, n - 1)
    ensures NamesUpTo(fmt, format, n) == NamesUpTo(fmt, format, n - 1)
    ensures !NamesDistinct(fmt, format, n)
  {
  }

  /** A new name grows the set by one and keeps distinctness as it was. */
  lemma NamesCountFresh(fmt: string, format: Formatter, n: int)
    requires n > 1 && forall i :: 1 <= i < n ==> format(fmt, i).Some?
    requires format(fmt, n - 1).value !in NamesUpTo(fmt, format, n - 1)
    requires forall i :: 1 <= i < n - 1 ==> format(fmt, i).value in NamesUpTo(fmt, format, n - 1)
    ensures |NamesUpTo(fmt, format, n)| == |NamesUpTo(fmt, format, n - 1)| + 1
    ensures NamesDistinct(fmt, format, n) <==> NamesDistinct(fmt, format, n - 1)
  {
    if NamesDistinct(fmt, format, n - 1) {
      forall j, k | 1 <= j < k < n
        ensures format(fmt, j) != format(fmt, k)
      {
        if k == n - 1 {
          assert format(fmt, j).value in NamesUpTo(fmt, format, n - 1);
        }
      }
    }
  }

  /** Once every name is defined, the size of the name set decides the court settings. */
  lemma NamesDecideConfig(count: int, fmt: string, format: Formatter)
    requires count >= 0 && Contains(fmt, "%d")
    requires forall j :: 1 <= j < count + 1 ==> format(fmt, j).Some?
    ensures |NamesUpTo(fmt, format, count + 1)| == count <==> CourtConfigValid(count, fmt, format)
  {
    NamesUpToCount(fmt, format, count + 1);
  }

  /** validCourtConfig: builds the set of names for courts 1..count and compares its size
      with the count. */
  method ValidCourtConfig(count: int, fmt: string, format: Formatter) returns (r: Result<()>)
    ensures r.Ok? <==> CourtConfigValid(count, fmt, format)
    ensures r.Err? ==> r.code == ParamError
  {
    if count < 0 || !Contains(fmt, "%d") {
      return Err(ParamError);
    }
    var names: set<string> := {};
    var i := 1;
    while i <= count
      invariant 1 <= i <= count + 1
      invariant forall j :: 1 <= j < i ==> format(fmt, j).Some?
      invariant names == NamesUpTo(fmt, format, i)
    {
      var name := format(fmt, i);
      if name.None? {
        return Err(ParamError);
      }
      names := names + {name.value};
      i := i + 1;
    }
    NamesDecideConfig(count, fmt, format);
    if |names| != count {
      return Err(ParamError);
    }
    return Ok(());
  }

  // ---------------------------------------------------------------------------------
  // The court-count window

  /** The clock is before the warmup of every session that has a flash time. */
  predicate BeforeEveryWarmup(sessions: seq<FlashSession>, warmup: int, now: SecondOfDay) {
    forall k :: 0 <= k < |sessions| && sessions[k].flashTime.Some? ==>
      ClockBefore(now, WarmupTime(sessions[k].flashTime.value, warmup))
  }

  /** canUpdateCourtCountNow: the earliest warmup time over the sessions with a flash time,
      and whether the clock is still before it; true when there is none. */
  method CanUpdateCourtCountNow(sessions: seq<FlashSession>, warmup: int, now: SecondOfDay) returns (ok: bool)
    ensures ok <==> BeforeEveryWarmup(sessions, warmup, now)
  {
    if |sessions| == 0 {
      return true;
    }
    var first: Option<TimeOfDay> := None;
    var i := 0;
    while i < |sessions|
      invariant 0 <= i <= |sessions|
      invariant first.None? <==> forall k :: 0 <= k < i ==> sessions[k].flashTime.None?
      invariant first.Some? ==> forall k :: 0 <= k < i && sessions[k].flashTime.Some? ==>
        first.value <= WarmupTime(sessions[k].flashTime.value, warmup)
      invariant first.Some? ==>
        exists k :: 0 <= k < i && sessions[k].flashTime.Some? && first.value == WarmupTime(sessions[k].flashTime.value, warmup)
    {
      var s := sessions[i];
      if s.flashTime.Some? {
        var w := WarmupTime(s.flashTime.value, warmup);
        if first.None? || w < first.value {
          first := Some(w);
        }
      }
      i := i + 1;
    }
    if first.None? {
      return true;
    }
    ok := ClockBefore(now, first.value);
    if !ok {
      var k :| 0 <= k < |sessions| && sessions[k].flashTime.Some? &&
        first.value == WarmupTime(sessions[k].flashTime.value, warmup);
      assert !ClockBefore(now, WarmupTime(sessions[k].flashTime.value, warmup));
    }
  }

  // ---------------------------------------------------------------------------------
  // Reconciling the court table

  /** The court table agrees with the settings: count active courts, the k-th by id named
      format(k + 1). */
  predicate CourtsInStep(courts: seq<Court>, count: int, fmt: string, format: Formatter) {
    var ids := ActiveCourtIds(courts);
    && |ids| == count
    && forall k :: 0 <= k < |ids| ==> format(fmt, k + 1) == Some(courts[ids[k] - 1].name)
  }

  /** The ids n + 1, ..., n + m that m inserts after n rows receive. */
  function FreshIds(n: int, m: nat): (r: seq<int>)
    ensures |r| == m
    ensures forall j :: 0 <= j < m ==> r[j] == n + 1 + j
  {
    seq(m, j => n + 1 + j)
  }

  /** The active ids after reconciling to target courts: the lowest target ids survive
      when shrinking; fresh ids follow the old ones when growing. */
  function SyncedIds(courts: seq<Court>, target: nat): seq<int> {
    var ids := ActiveCourtIds(courts);
    if target <= |ids| then ids[..target] else ids + FreshIds(|courts|, target - |ids|)
  }

  /** Reconciliation keeps the lowest existing ids and adds only ids above every existing
      row. */
  lemma SyncedIdsShape(courts: seq<Court>, target: nat)
    ensures var ids := ActiveCourtIds(courts);
      var r := SyncedIds(courts, target);
      && |r| == target
      && (forall k :: 0 <= k < |r| && k < |ids| ==> r[k] == ids[k])
      && (forall k :: |ids| <= k < |r| ==> r[k] > |courts|)
  {
  }

  /** syncCourts: insert the missing courts, delete the surplus ones with the highest ids
      in ascending order, then rename every active court whose name differs from the one
      the format gives its position. */
  method SyncCourts(db: Db, target: nat, fmt: string, format: Formatter)
    requires CourtConfigValid(target, fmt, format)
    modifies db
    ensures ActiveCourtIds(db.courts) == SyncedIds(old(db.courts), target)
    ensures CourtsInStep(db.courts, target, fmt, format)
    ensures CourtsInStep(old(db.courts), target, fmt, format) ==> db.courts == old(db.courts)
    ensures db.reservations == old(db.reservations) && db.payOrders == old(db.payOrders)
    ensures db.slots == old(db.slots) && db.sessions == old(db.sessions)
  {
    var courts := db.courts;
    var current := |ActiveCourtIds(courts)|;
    if current < target {
      courts := InsertCourts(courts, target, fmt, format);
    } else if current > target {
      courts := DeleteCourts(courts, target);
    } else {
      assert ActiveCourtIds(courts)[..target] == ActiveCourtIds(courts);
    }
    courts := RenameCourts(courts, fmt, format);
    db.courts := courts;
  }

  /** The insert loop: one active court per missing position, named for its position;
      existing rows are untouched. */
  method InsertCourts(courts: seq<Court>, target: nat, fmt: string, format: Formatter) returns (r: seq<Court>)
    requires |ActiveCourtIds(courts)| < target
    requires forall i :: 1 <= i <= target ==> format(fmt, i).Some?
    ensures ActiveCourtIds(r) == SyncedIds(courts, target)
    ensures |r| >= |courts| && r[..|courts|] == courts
  {
    var ids := ActiveCourtIds(courts);
    var from := |ids| + 1;
    r := courts;
    var i := from;
    assert ids + FreshIds(|courts|, 0) == ids;
    while i <= target
      invariant from <= i <= target + 1
      invariant |r| == |courts| + (i - from) && r[..|courts|] == courts
      invariant ActiveCourtIds(r) == ids + FreshIds(|courts|, i - from)
    {
      var c := Court(format(fmt, i).value, true);
      InsertStep(r, ids, |courts|, i - from, c);
      r := r + [c];
      i := i + 1;
    }
  }

  /** One step of the insert loop: the appended court takes the next fresh id. */
  lemma {:induction false} InsertStep(r: seq<Court>, ids: seq<int>, n: int, m: nat, c: Court)
    requires c.active && |r| == n + m && n >= 0
    requires ActiveCourtIds(r) == ids + FreshIds(n, m)
    ensures ActiveCourtIds(r + [c]) == ids + FreshIds(n, m + 1)
    ensures (r + [c])[..n] == r[..n]
  {
    var before := ActiveCourtIds(r);
    ActiveCourtIdsAppend(r, c);
    FreshIdsExtend(ids, n, m);
    calc {
      ActiveCourtIds(r + [c]);
      before + [n + m + 1];
      (ids + FreshIds(n, m)) + [n + m + 1];
      ids + FreshIds(n, m + 1);
    }
    assert (r + [c])[..n] == r[..n];
  }

  /** Sequence bookkeeping of the insert loop. */
  lemma FreshIdsExtend(ids: seq<int>, n: int, m: nat)
    ensures (ids + FreshIds(n, m)) + [n + m + 1] == ids + FreshIds(n, m + 1)
  {
    assert FreshIds(n, m) + [n + m + 1] == FreshIds(n, m + 1);
  }

  /** The delete loop: logically deletes the active courts at positions target.. of the
      list read before the loop; names and row count are untouched. */
  method DeleteCourts(courts: seq<Court>, target: nat) returns (r: seq<Court>)
    requires target < |ActiveCourtIds(courts)|
    ensures ActiveCourtIds(r) == SyncedIds(courts, target)
    ensures |r| == |courts| && forall k :: 0 <= k < |r| ==> r[k].name == courts[k].name
  {
    var ids := ActiveCourtIds(courts);
    r := RetireLoop(courts, ids, target);
    RetirePrefixActive(courts, ids, target, |ids|);
    assert ids[..target] + ids[|ids|..] == ids[..target];
    NamesAgree(r, courts);
  }

  /** The delete loop itself: one logical delete per id of ids from position target on. */
  method RetireLoop(courts: seq<Court>, ids: seq<int>, target: nat) returns (r: seq<Court>)
    requires target <= |ids|
    requires forall m :: 0 <= m < |ids| ==> 1 <= ids[m] <= |courts|
    ensures r == RetirePrefix(courts, ids, target, |ids|)
  {
    r := courts;
    var i := target;
    while i < |ids|
      invariant target <= i <= |ids|
      invariant r == RetirePrefix(courts, ids, target, i)
    {
      r := r[ids[i] - 1 := r[ids[i] - 1].(active := false)];
      i := i + 1;
    }
  }

  /** The table after the delete loop has retired the ids at positions target..i - 1. */
  function RetirePrefix(courts: seq<Court>, ids: seq<int>, target: nat, i: nat): (r: seq<Court>)
    requires target <= i <= |ids|
    requires forall m :: 0 <= m < |ids| ==> 1 <= ids[m] <= |courts|
    ensures |r| == |courts|
    decreases i
  {
    if i == target then courts
    else
      var r := RetirePrefix(courts, ids, target, i - 1);
      r[ids[i - 1] - 1 := r[ids[i - 1] - 1].(active := false)]
  }

  /** After the delete loop has retired positions target..i - 1 of the active list ids,
      the active list is ids without them, and every name is kept. */
  lemma {:induction false} RetirePrefixActive(courts: seq<Court>, ids: seq<int>, target: nat, i: nat)
    requires ids == ActiveCourtIds(courts) && target <= i <= |ids|
    requires forall m :: 0 <= m < |ids| ==> 1 <= ids[m] <= |courts|
    ensures var r := RetirePrefix(courts, ids, target, i);
      ActiveCourtIds(r) == ids[..target] + ids[i..] && Names(r) == Names(courts)
  {
    if i == target {
      RetirePrefixStart(courts, ids, target);
    } else {
      RetirePrefixActive(courts, ids, target, i - 1);
      RetirePrefixStep(courts, ids, target, i);
    }
  }

  /** Before the first turn of the delete loop nothing is retired. */
  lemma RetirePrefixStart(courts: seq<Court>, ids: seq<int>, target: nat)
    requires ids == ActiveCourtIds(courts) && target <= |ids|
    requires forall m :: 0 <= m < |ids| ==> 1 <= ids[m] <= |courts|
    ensures var r := RetirePrefix(courts, ids, target, target);
      ActiveCourtIds(r) == ids[..target] + ids[target..] && Names(r) == Names(courts)
  {
    assert ids[..target] + ids[target..] == ids;
  }

  /** One turn of the delete loop, stated on the fold. */
  lemma RetirePrefixStep(courts: seq<Court>, ids: seq<int>, target: nat, i: nat)
    requires target < i <= |ids|
    requires forall m :: 0 <= m < |ids| ==> 1 <= ids[m] <= |courts|
    requires var r := RetirePrefix(courts, ids, target, i - 1);
      ActiveCourtIds(r) == ids[..target] + ids[i - 1..] && Names(r) == Names(courts)
    ensures var r := RetirePrefix(courts, ids, target, i);
      ActiveCourtIds(r) == ids[..target] + ids[i..] && Names(r) == Names(courts)
  {
    var r := RetirePrefix(courts, ids, target, i - 1);
    DeleteStep(r, ids, target, i - 1);
    RetireKeepsNames(r, ids[i - 1] - 1);
  }

  /** The court names, row by row. */
  function Names(courts: seq<Court>): (names: seq<string>)
    ensures |names| == |courts|
  {
    seq(|courts|, k requires 0 <= k < |courts| => courts[k].name)
  }

  /** A logical delete keeps every name. */
  lemma RetireKeepsNames(r: seq<Court>, j: int)
    requires 0 <= j < |r|
    ensures Names(r[j := r[j].(active := false)]) == Names(r)
  {
  }

  lemma NamesAgree(a: seq<Court>, b: seq<Court>)
    requires Names(a) == Names(b)
    ensures |a| == |b| && forall k :: 0 <= k < |a| ==> a[k].name == b[k].name
  {
    forall k | 0 <= k < |a|
      ensures a[k].name == b[k].name
    {
      assert Names(a)[k] == Names(b)[k];
    }
  }

  /** One step of the delete loop: the court deleted is the one at position target of
      the current active list. */
  lemma {:induction false} DeleteStep(r: seq<Court>, ids: seq<int>, target: nat, i: nat)
    requires target <= i < |ids|
    requires ActiveCourtIds(r) == ids[..target] + ids[i..]
    ensures IsId(r, ids[i])
    ensures ActiveCourtIds(r[ids[i] - 1 := r[ids[i] - 1].(active := false)]) == ids[..target] + ids[i + 1..]
  {
    DropAfterKept(ActiveCourtIds(r), ids, target, i);
    DeleteActiveAt(r, target, ids[i], ids[..target] + ids[i + 1..]);
  }

  /** The delete step with the active list kept abstract. */
  lemma {:induction false} DeleteActiveAt(r: seq<Court>, p: nat, x: int, rest: seq<int>)
    requires p < |ActiveCourtIds(r)| && ActiveCourtIds(r)[p] == x
    requires ActiveCourtIds(r)[..p] + ActiveCourtIds(r)[p + 1..] == rest
    ensures IsId(r, x)
    ensures ActiveCourtIds(r[x - 1 := r[x - 1].(active := false)]) == rest
  {
    ActiveCourtIdsDelete(r, p, x);
  }

  /** Sequence bookkeeping of the delete loop. */
  lemma DropAfterKept(now: seq<int>, ids: seq<int>, target: nat, i: nat)
    requires target <= i < |ids| && now == ids[..target] + ids[i..]
    ensures target < |now| && now[target] == ids[i]
    ensures now[..target] + now[target + 1..] == ids[..target] + ids[i + 1..]
  {
    assert now[..target] == ids[..target];
    assert now[target + 1..] == ids[i + 1..];
  }

  /** The rename loop: the k-th active court by id gets the name format(k + 1) unless it
      already has it. */
  method RenameCourts(courts: seq<Court>, fmt: string, format: Formatter) returns (r: seq<Court>)
    requires forall i :: 1 <= i <= |ActiveCourtIds(courts)| ==> format(fmt, i).Some?
    ensures ActiveCourtIds(r) == ActiveCourtIds(courts)
    ensures CourtsInStep(r, |ActiveCourtIds(courts)|, fmt, format)
    ensures CourtsInStep(courts, |ActiveCourtIds(courts)|, fmt, format) ==> r == courts
  {
    var active := ActiveCourtIds(courts);
    r := RenameLoop(courts, active, fmt, format);
    RenameCourtsDone(courts, fmt, format);
  }

  /** The rename loop itself: one turn per id in active, in order. */
  method RenameLoop(courts: seq<Court>, active: seq<int>, fmt: string, format: Formatter) returns (r: seq<Court>)
    requires forall m :: 0 <= m < |active| ==> 1 <= active[m] <= |courts|
    requires forall i :: 1 <= i <= |active| ==> format(fmt, i).Some?
    ensures r == RenamePrefix(courts, active, fmt, format, |active|)
  {
    r := courts;
    var k := 0;
    while k < |active|
      invariant 0 <= k <= |active|
      invariant r == RenamePrefix(courts, active, fmt, format, k)
    {
      r := RenameAt(r, active[k] - 1, format(fmt, k + 1).value);
      k := k + 1;
    }
  }

  /** The body of the rename loop: the update runs only when the name differs. */
  method RenameAt(r: seq<Court>, c: int, name: string) returns (r': seq<Court>)
    requires 0 <= c < |r|
    ensures r' == RenameOne(r, c, name)
    ensures r'[c].name == name
  {
    r' := r;
    if r[c].name != name {
      r' := r[c := r[c].(name := name)];
    }
  }

  /** One turn of the rename loop: row c gets the name unless it already has it. */
  function RenameOne(r: seq<Court>, c: int, name: string): (r': seq<Court>)
    requires 0 <= c < |r|
    ensures |r'| == |r|
  {
    if r[c].name != name then r[c := r[c].(name := name)] else r
  }

  /** The table after the first k turns of the rename loop over the ids in active. */
  function RenamePrefix(courts: seq<Court>, active: seq<int>, fmt: string, format: Formatter, k: nat): (r: seq<Court>)
    requires k <= |active|
    requires forall m :: 0 <= m < |active| ==> 1 <= active[m] <= |courts|
    requires forall i :: 1 <= i <= k ==> format(fmt, i).Some?
    ensures |r| == |courts|
  {
    if k == 0 then courts
    else RenameOne(RenamePrefix(courts, active, fmt, format, k - 1), active[k - 1] - 1, format(fmt, k).value)
  }

  /** What the whole rename loop achieves: the active courts stay the same, each is named
      for its position, and a table already in step is left exactly as it was. */
  lemma {:induction false} RenameCourtsDone(courts: seq<Court>, fmt: string, format: Formatter)
    requires forall i :: 1 <= i <= |ActiveCourtIds(courts)| ==> format(fmt, i).Some?
    ensures var active := ActiveCourtIds(courts);
      var r := RenamePrefix(courts, active, fmt, format, |active|);
      && ActiveCourtIds(r) == active
      && CourtsInStep(r, |active|, fmt, format)
      && (CourtsInStep(courts, |active|, fmt, format) ==> r == courts)
  {
    var active := ActiveCourtIds(courts);
    var r := RenamePrefix(courts, active, fmt, format, |active|);
    ActiveCourtIdsComplete(courts);
    RenamePrefixNamed(courts, active, fmt, format, |active|);
    NamedAllInStep(courts, r, active, fmt, format);
    if CourtsInStep(courts, |active|, fmt, format) {
      RenamePrefixInStep(courts, active, fmt, format, |active|);
    }
  }

  /** A table whose every active court is named for its position, with the active flags
      of the original, is in step. */
  lemma NamedAllInStep(courts: seq<Court>, r: seq<Court>, active: seq<int>, fmt: string, format: Formatter)
    requires active == ActiveCourtIds(courts) && ActiveFlags(r) == ActiveFlags(courts)
    requires NamedUpTo(courts, r, active, fmt, format, |active|)
    ensures ActiveCourtIds(r) == active && CourtsInStep(r, |active|, fmt, format)
  {
    ActiveCourtIdsOfFlags(r, courts);
  }

  /** After k turns the first k active courts carry their position's name, the others are
      as they were, and no court changed its active flag. */
  lemma {:induction false} RenamePrefixNamed(courts: seq<Court>, active: seq<int>, fmt: string, format: Formatter, k: nat)
    requires k <= |active| && StrictlyIncreasing(active)
    requires forall m :: 0 <= m < |active| ==> 1 <= active[m] <= |courts|
    requires forall i :: 1 <= i <= k ==> format(fmt, i).Some?
    ensures var r := RenamePrefix(courts, active, fmt, format, k);
      NamedUpTo(courts, r, active, fmt, format, k) && ActiveFlags(r) == ActiveFlags(courts)
  {
    if k > 0 {
      RenamePrefixNamed(courts, active, fmt, format, k - 1);
      RenamePrefixStep(courts, active, fmt, format, k);
    }
  }

  /** The k-th turn of the rename loop names one more court and keeps the flags. */
  lemma RenamePrefixStep(courts: seq<Court>, active: seq<int>, fmt: string, format: Formatter, k: nat)
    requires 0 < k <= |active| && StrictlyIncreasing(active)
    requires forall m :: 0 <= m < |active| ==> 1 <= active[m] <= |courts|
    requires forall i :: 1 <= i <= k ==> format(fmt, i).Some?
    requires var r := RenamePrefix(courts, active, fmt, format, k - 1);
      NamedUpTo(courts, r, active, fmt, format, k - 1) && ActiveFlags(r) == ActiveFlags(courts)
    ensures var r := RenamePrefix(courts, active, fmt, format, k);
      NamedUpTo(courts, r, active, fmt, format, k) && ActiveFlags(r) == ActiveFlags(courts)
  {
    var r := RenamePrefix(courts, active, fmt, format, k - 1);
    RenameOneStep(courts, r, active, fmt, format, k);
  }

  /** One rename on a table in the loop's state after k - 1 turns gives its state after k. */
  lemma RenameOneStep(courts: seq<Court>, r: seq<Court>, active: seq<int>, fmt: string, format: Formatter, k: nat)
    requires 0 < k <= |active| && StrictlyIncreasing(active)
    requires format(fmt, k).Some?
    requires NamedUpTo(courts, r, active, fmt, format, k - 1) && ActiveFlags(r) == ActiveFlags(courts)
    ensures var r' := RenameOne(r, active[k - 1] - 1, format(fmt, k).value);
      NamedUpTo(courts, r', active, fmt, format, k) && ActiveFlags(r') == ActiveFlags(courts)
  {
    NameStep(courts, r, active, fmt, format, k - 1);
    RenameKeepsFlags(r, active[k - 1] - 1, format(fmt, k).value);
  }

  /** On a table whose active courts already carry their positions' names every turn of
      the rename loop is skipped. */
  lemma {:induction false} RenamePrefixInStep(courts: seq<Court>, active: seq<int>, fmt: string, format: Formatter, k: nat)
    requires k <= |active|
    requires forall m :: 0 <= m < |active| ==> 1 <= active[m] <= |courts|
    requires forall m :: 0 <= m < |active| ==> format(fmt, m + 1) == Some(courts[active[m] - 1].name)
    requires forall i :: 1 <= i <= k ==> format(fmt, i).Some?
    ensures RenamePrefix(courts, active, fmt, format, k) == courts
  {
    if k > 0 {
      RenamePrefixInStep(courts, active, fmt, format, k - 1);
      assert format(fmt, k) == Some(courts[active[k - 1] - 1].name);
    }
  }

  /** Renaming a court keeps every active flag. */
  lemma RenameKeepsFlags(r: seq<Court>, c: int, name: string)
    requires 0 <= c < |r|
    ensures ActiveFlags(RenameOne(r, c, name)) == ActiveFlags(r)
  {
  }

  /** The naming state of the rename loop after k turns: the first k active courts are
      named for their position and the rest are as they were. */
  predicate NamedUpTo(courts: seq<Court>, r: seq<Court>, active: seq<int>, fmt: string, format: Formatter, k: nat) {
    && k <= |active|
    && |r| == |courts|
    && (forall m :: 0 <= m < |active| ==> 1 <= active[m] <= |r|)
    && (forall m :: 0 <= m < k ==> format(fmt, m + 1) == Some(r[active[m] - 1].name))
    && (forall m :: k <= m < |active| ==> r[active[m] - 1] == courts[active[m] - 1])
  }

  /** The naming bookkeeping of a rename step: distinct ids name distinct rows. */
  lemma NameStep(courts: seq<Court>, r: seq<Court>, active: seq<int>, fmt: string, format: Formatter, k: nat)
    requires NamedUpTo(courts, r, active, fmt, format, k) && k < |active| && StrictlyIncreasing(active)
    requires format(fmt, k + 1).Some?
    ensures NamedUpTo(courts, RenameOne(r, active[k] - 1, format(fmt, k + 1).value), active, fmt, format, k + 1)
  {
    var c := active[k] - 1;
    var name := format(fmt, k + 1).value;
    var r' := RenameOne(r, c, name);
    forall m | 0 <= m < |active| && m != k
      ensures r'[active[m] - 1] == r[active[m] - 1]
    {
      assert active[m] != active[k];
    }
  }

  /** isCourtNameMismatched: some court among the first min(|courts|, count) by id carries
      a name other than the one the format gives its position. */
  method IsCourtNameMismatched(courts: seq<Court>, fmt: string, format: Formatter, count: int) returns (mismatched: bool)
    ensures var ids := ActiveCourtIds(courts);
      mismatched <==> exists k :: 0 <= k < |ids| && k < count && format(fmt, k + 1) != Some(courts[ids[k] - 1].name)
  {
    var ids := ActiveCourtIds(courts);
    var max := if |ids| < count then |ids| else count;
    var i := 0;
    while i < max
      invariant 0 <= i <= |ids| && (i <= max || i == 0)
      invariant forall k :: 0 <= k < i ==> format(fmt, k + 1) == Some(courts[ids[k] - 1].name)
    {
      if format(fmt, i + 1) != Some(courts[ids[i] - 1].name) {
        return true;
      }
      i := i + 1;
    }
    return false;
  }

  /** The start-up reconciliation repairs nothing exactly when the table is already in
      step: the count matches and no name differs. */
  lemma InStepIffNoMismatch(courts: seq<Court>, fmt: string, format: Formatter, count: int)
    ensures var ids := ActiveCourtIds(courts);
      CourtsInStep(courts, count, fmt, format) <==>
        |ids| == count && !exists k :: 0 <= k < |ids| && k < count && format(fmt, k + 1) != Some(courts[ids[k] - 1].name)
  {
  }

  // ---------------------------------------------------------------------------------
  // updateConfig

  datatype ConfigKey = WarmupMinute | PayTimeoutMinute | GenerateTimeSlotTime | CourtCount | CourtNameFormat

  /** A submitted item; either part may be null. */
  datatype ConfigItem = ConfigItem(configKey: Option<ConfigKey>, text: Option<string>)

  /** The config table: one value per key that has a row. */
  class ConfigTable {
    var values: map<ConfigKey, string>

    constructor (values: map<ConfigKey, string>)
      ensures this.values == values
    {
      this.values := values;
    }
  }

  /** The settings the validation works on. */
  datatype Settings = Settings(warmup: int, generateTime: TimeOfDay, courtCount: int, courtNameFormat: string)

  /** The stored settings: warmup minutes and generation time must be present and parse;
      the court count defaults to the number of active courts and the name format to the
      default one when absent or empty. Any failure is a parameter error. */
  function LoadSettings(config: map<ConfigKey, string>, activeCourts: int, parseTime: TimeParser): (r: Result<Settings>)
    ensures r.Err? ==> r.code == ParamError
    ensures r.Ok? ==> if CourtCount !in config || config[CourtCount] == "" then r.value.courtCount == activeCourts
                      else ParseInt(config[CourtCount]) == Some(r.value.courtCount)
    ensures r.Ok? ==> r.value.courtNameFormat != ""
  {
    if WarmupMinute !in config || ParseInt(config[WarmupMinute]).None? then Err(ParamError)
    else if GenerateTimeSlotTime !in config || parseTime(config[GenerateTimeSlotTime]).None? then Err(ParamError)
    else
      var count := if CourtCount !in config || config[CourtCount] == "" then Some(activeCourts) else ParseInt(config[CourtCount]);
      var fmt := if CourtNameFormat !in config || config[CourtNameFormat] == "" then DefaultCourtNameFormat else config[CourtNameFormat];
      if count.None? then Err(ParamError)
      else Ok(Settings(ParseInt(config[WarmupMinute]).value, parseTime(config[GenerateTimeSlotTime]).value, count.value, fmt))
  }

  /** An item that the merge and the write-back consider: non-null, with a key and a
      non-empty value. */
  predicate Usable(item: Option<ConfigItem>) {
    item.Some? && item.value.configKey.Some? && item.value.text.Some? && item.value.text.value != ""
  }

  /** A usable item whose value does not parse for its key. */
  predicate Unparsable(item: Option<ConfigItem>, parseTime: TimeParser) {
    && Usable(item)
    && match item.value.configKey.value {
         case WarmupMinute => ParseInt(item.value.text.value).None?
         case CourtCount => ParseInt(item.value.text.value).None?
         case GenerateTimeSlotTime => parseTime(item.value.text.value).None?
         case _ => false
       }
  }

  /** One step of the merge loop. Pay-timeout items are not merged. */
  function ApplyItem(s: Settings, item: Option<ConfigItem>, parseTime: TimeParser): Result<Settings> {
    if !Usable(item) then Ok(s)
    else
      var text := item.value.text.value;
      match item.value.configKey.value {
        case WarmupMinute => if ParseInt(text).None? then Err(ParamError) else Ok(s.(warmup := ParseInt(text).value))
        case GenerateTimeSlotTime => if parseTime(text).None? then Err(ParamError) else Ok(s.(generateTime := parseTime(text).value))
        case CourtCount => if ParseInt(text).None? then Err(ParamError) else Ok(s.(courtCount := ParseInt(text).value))
        case CourtNameFormat => Ok(s.(courtNameFormat := text))
        case PayTimeoutMinute => Ok(s)
      }
  }

  /** The merge loop over the items, in order. */
  function MergeSpec(s: Settings, items: seq<Option<ConfigItem>>, parseTime: TimeParser): Result<Settings> {
    if |items| == 0 then Ok(s)
    else match MergeSpec(s, items[..|items| - 1], parseTime) {
      case Err(e) => Err(e)
      case Ok(t) => ApplyItem(t, items[|items| - 1], parseTime)
    }
  }

  /** The value of the last usable item for a key, if any. */
  function LastText(items: seq<Option<ConfigItem>>, key: ConfigKey): Option<string> {
    if |items| == 0 then None
    else
      var last := items[|items| - 1];
      if Usable(last) && last.value.configKey == Some(key) then last.value.text
      else LastText(items[..|items| - 1], key)
  }

  /** The text found is that of a usable item for the key, and none is found only when no
      usable item names the key. */
  lemma {:induction false} LastTextFound(items: seq<Option<ConfigItem>>, key: ConfigKey)
    ensures var r := LastText(items, key);
      && (r.Some? ==> exists i :: 0 <= i < |items| && Usable(items[i]) && items[i].value.configKey == Some(key) && items[i].value.text == r)
      && (r.None? ==> forall i :: 0 <= i < |items| && Usable(items[i]) ==> items[i].value.configKey != Some(key))
  {
    if |items| > 0 {
      var front := items[..|items| - 1];
      LastTextFound(front, key);
      if LastText(items, key) == LastText(front, key) && LastText(front, key).Some? {
        var i :| 0 <= i < |front| && Usable(front[i]) && front[i].value.configKey == Some(key) && front[i].value.text == LastText(front, key);
        assert items[i] == front[i];
      }
    }
  }

  /** The merge fails exactly when some usable item does not parse, and always with a
      parameter error. */
  lemma {:induction false} MergeFailsIffUnparsable(s: Settings, items: seq<Option<ConfigItem>>, parseTime: TimeParser)
    ensures var r := MergeSpec(s, items, parseTime);
      && (r.Err? <==> exists i :: 0 <= i < |items| && Unparsable(items[i], parseTime))
      && (r.Err? ==> r.code == ParamError)
  {
    if |items| > 0 {
      var front := items[..|items| - 1];
      MergeFailsIffUnparsable(s, front, parseTime);
      UnparsableSplit(items, front, parseTime);
      match MergeSpec(s, front, parseTime) {
        case Err(_) =>
        case Ok(t) => ApplyFailsIffUnparsable(t, items[|items| - 1], parseTime);
      }
    }
  }

  /** One merge step fails exactly on an unparsable item, with a parameter error. */
  lemma ApplyFailsIffUnparsable(t: Settings, item: Option<ConfigItem>, parseTime: TimeParser)
    ensures ApplyItem(t, item, parseTime).Err? <==> Unparsable(item, parseTime)
    ensures ApplyItem(t, item, parseTime).Err? ==> ApplyItem(t, item, parseTime).code == ParamError
  {
  }

  /** Some item is unparsable exactly when one before the last is or the last one is. */
  lemma UnparsableSplit(items: seq<Option<ConfigItem>>, front: seq<Option<ConfigItem>>, parseTime: TimeParser)
    requires |items| > 0 && front == items[..|items| - 1]
    ensures (exists i :: 0 <= i < |items| && Unparsable(items[i], parseTime))
        <==> (exists i :: 0 <= i < |front| && Unparsable(front[i], parseTime)) || Unparsable(items[|items| - 1], parseTime)
  {
    if exists i :: 0 <= i < |front| && Unparsable(front[i], parseTime) {
      var i :| 0 <= i < |front| && Unparsable(front[i], parseTime);
      assert Unparsable(items[i], parseTime);
    }
    if exists i :: 0 <= i < |items| && Unparsable(items[i], parseTime) {
      var i :| 0 <= i < |items| && Unparsable(items[i], parseTime);
      if i < |front| {
        assert Unparsable(front[i], parseTime);
      }
    }
  }

  /** A successful merge takes each setting from the last usable item for its key, and
      keeps the stored value when there is none. */
  lemma {:induction false} MergeLastWins(s: Settings, items: seq<Option<ConfigItem>>, parseTime: TimeParser)
    requires MergeSpec(s, items, parseTime).Ok?
    ensures LastWins(s, items, MergeSpec(s, items, parseTime).value, parseTime)
  {
    if |items| > 0 {
      var front := items[..|items| - 1];
      MergeLastWins(s, front, parseTime);
      MergeLastWinsStep(s, items, MergeSpec(s, front, parseTime).value, MergeSpec(s, items, parseTime).value, parseTime);
    }
  }

  /** Each setting of t comes from the last usable item for its key, or from s when
      there is none. */
  predicate LastWins(s: Settings, items: seq<Option<ConfigItem>>, t: Settings, parseTime: TimeParser) {
    && (match LastText(items, WarmupMinute) case None => t.warmup == s.warmup case Some(x) => ParseInt(x) == Some(t.warmup))
    && (match LastText(items, GenerateTimeSlotTime)
          case None => t.generateTime == s.generateTime case Some(x) => parseTime(x) == Some(t.generateTime))
    && (match LastText(items, CourtCount) case None => t.courtCount == s.courtCount case Some(x) => ParseInt(x) == Some(t.courtCount))
    && (match LastText(items, CourtNameFormat) case None => t.courtNameFormat == s.courtNameFormat case Some(x) => t.courtNameFormat == x)
  }

  lemma MergeLastWinsStep(s: Settings, items: seq<Option<ConfigItem>>, t0: Settings, t: Settings, parseTime: TimeParser)
    requires |items| > 0 && LastWins(s, items[..|items| - 1], t0, parseTime)
    requires ApplyItem(t0, items[|items| - 1], parseTime) == Ok(t)
    ensures LastWins(s, items, t, parseTime)
  {
    var front, last := items[..|items| - 1], items[|items| - 1];
    if !Usable(last) {
      assert t == t0;
      assert forall k :: LastText(items, k) == LastText(front, k);
    } else {
      var key, text := last.value.configKey.value, last.value.text.value;
      assert LastText(items, key) == Some(text);
      assert forall k :: k != key ==> LastText(items, k) == LastText(front, k);
      match key {
        case WarmupMinute => assert t == t0.(warmup := ParseInt(text).value);
        case GenerateTimeSlotTime => assert t == t0.(generateTime := parseTime(text).value);
        case CourtCount => assert t == t0.(courtCount := ParseInt(text).value);
        case CourtNameFormat => assert t == t0.(courtNameFormat := text);
        case PayTimeoutMinute => assert t == t0;
      }
    }
  }

  /** The settings updateConfig accepts, given those it started from, or the error it
      raises before writing anything. */
  function Validate(prev: Settings, st: Settings, sessions: seq<FlashSession>, format: Formatter, now: SecondOfDay): (r: Result<Settings>)
    ensures r.Ok? ==> r.value == st
  {
    if st.warmup < 0 || !SessionsValid(st.warmup, st.generateTime, sessions)
      || !CourtConfigValid(st.courtCount, st.courtNameFormat, format) then Err(ParamError)
    else if st.courtCount != prev.courtCount && !BeforeEveryWarmup(sessions, st.warmup, now) then Err(CourtCountUpdateWindowClosed)
    else Ok(st)
  }

  /** Accepted settings can be acted on by every job: each session generates whole slots
      and is warmed no earlier than its slots are generated, the court names are
      distinct, and a changed court count was changed before any warmup of the day. */
  lemma AcceptedSettings(prev: Settings, st: Settings, sessions: seq<FlashSession>, format: Formatter, now: SecondOfDay)
    requires Validate(prev, st, sessions, format, now).Ok?
    ensures st.warmup >= 0 && CourtConfigValid(st.courtCount, st.courtNameFormat, format)
    ensures PositiveIntervals(sessions)
    ensures forall k :: 0 <= k < |sessions| ==>
      var s := sessions[k];
      && s.flashTime.Some?
      && Span(s) % s.slotInterval == 0 && SlotsPerCourt(s) >= 1
      && st.generateTime <= s.flashTime.value - st.warmup <= s.flashTime.value <= s.beginTime
    ensures st.courtCount != prev.courtCount ==> BeforeEveryWarmup(sessions, st.warmup, now)
  {
    forall k | 0 <= k < |sessions|
      ensures var s := sessions[k];
        && s.flashTime.Some?
        && Span(s) % s.slotInterval == 0 && SlotsPerCourt(s) >= 1
        && st.generateTime <= s.flashTime.value - st.warmup <= s.flashTime.value <= s.beginTime
    {
      SessionConfigCheckIff(st.warmup, st.generateTime, sessions[k]);
      AcceptedSessionGenerates(st.warmup, st.generateTime, sessions[k]);
    }
    forall s | s in sessions
      ensures s.slotInterval > 0
    {
      var k :| 0 <= k < |sessions| && sessions[k] == s;
      SessionConfigCheckIff(st.warmup, st.generateTime, s);
    }
  }

  /** The write-back loop: every usable item is stored under its key, later items over
      earlier ones. */
  function UpsertSpec(config: map<ConfigKey, string>, items: seq<Option<ConfigItem>>): map<ConfigKey, string> {
    if |items| == 0 then config
    else
      var front := UpsertSpec(config, items[..|items| - 1]);
      var last := items[|items| - 1];
      if Usable(last) then front[last.value.configKey.value := last.value.text.value] else front
  }

  /** The keys whose stored value a usable item differs from at the moment it is written. */
  function ChangedSpec(config: map<ConfigKey, string>, items: seq<Option<ConfigItem>>): set<ConfigKey> {
    if |items| == 0 then {}
    else
      var front := items[..|items| - 1];
      var last := items[|items| - 1];
      var before := UpsertSpec(config, front);
      if Usable(last) && !(last.value.configKey.value in before && before[last.value.configKey.value] == last.value.text.value)
      then ChangedSpec(config, front) + {last.value.configKey.value}
      else ChangedSpec(config, front)
  }

  /** After the write-back each key holds the last usable item's value for it, or its old
      value when no item names it. */
  lemma {:induction false} UpsertLastWins(config: map<ConfigKey, string>, items: seq<Option<ConfigItem>>, key: ConfigKey)
    ensures var u := UpsertSpec(config, items);
      match LastText(items, key) {
        case Some(x) => key in u && u[key] == x
        case None => (key in u <==> key in config) && (key in config ==> u[key] == config[key])
      }
  {
    if |items| > 0 {
      UpsertLastWins(config, items[..|items| - 1], key);
    }
  }

  /** Only keys that some usable item names can be reported changed, and a key whose
      stored value really changes is reported. */
  lemma {:induction false} ChangedKeysSound(config: map<ConfigKey, string>, items: seq<Option<ConfigItem>>, key: ConfigKey)
    ensures key in ChangedSpec(config, items) ==> LastText(items, key).Some?
    ensures var u := UpsertSpec(config, items);
      (key in u) != (key in config) || (key in u && u[key] != config[key]) ==> key in ChangedSpec(config, items)
  {
    if |items| > 0 {
      var front := items[..|items| - 1];
      ChangedKeysSound(config, front, key);
      UpsertLastWins(config, front, key);
      UpsertLastWins(config, items, key);
    }
  }

  /** The write-back loop as a method over the config table; a null item throws. */
  method WriteBack(config: ConfigTable, items: seq<Option<ConfigItem>>) returns (r: Result<set<ConfigKey>>)
    modifies config
    ensures r.Err? <==> exists i :: 0 <= i < |items| && items[i].None?
    ensures r.Err? ==> r.code == Unexpected
    ensures r.Ok? ==> config.values == UpsertSpec(old(config.values), items) && r.value == ChangedSpec(old(config.values), items)
  {
    var changed: set<ConfigKey> := {};
    var i := 0;
    while i < |items|
      invariant 0 <= i <= |items|
      invariant forall k :: 0 <= k < i ==> items[k].Some?
      invariant config.values == UpsertSpec(old(config.values), items[..i])
      invariant changed == ChangedSpec(old(config.values), items[..i])
    {
      assert items[..i + 1][..i] == items[..i];
      var item := items[i];
      if item.None? {
        return Err(Unexpected);
      }
      if Usable(item) {
        var key := item.value.configKey.value;
        var text := item.value.text.value;
        if !(key in config.values && config.values[key] == text) {
          changed := changed + {key};
        }
        config.values := config.values[key := text];
      }
      i := i + 1;
    }
    assert items[..i] == items;
    return Ok(changed);
  }

  /** The outcome of updateConfig on a non-empty item list, from the tables before
      (courts0, values0) to the result and the tables after: the first failing step's
      error, Unexpected for a null item at write-back, or success with the changed keys,
      the items upserted and the courts in step with a changed count or format. */
  ghost predicate ConfigUpdated(courts0: seq<Court>, values0: map<ConfigKey, string>, sessions: seq<FlashSession>,
                                items: seq<Option<ConfigItem>>, parseTime: TimeParser, format: Formatter,
                                now: SecondOfDay, r: Result<set<ConfigKey>>, courts: seq<Court>,
                                values: map<ConfigKey, string>)
  {
    var load := LoadSettings(values0, |ActiveCourtIds(courts0)|, parseTime);
    match load {
      case Err(e) => r == Err(e)
      case Ok(prev) =>
        match MergeSpec(prev, items, parseTime) {
          case Err(e) => r == Err(e)
          case Ok(st) =>
            match Validate(prev, st, sessions, format, now) {
              case Err(e) => r == Err(e)
              case Ok(_) =>
                if exists i :: 0 <= i < |items| && items[i].None? then r == Err(Unexpected)
                else
                  && r == Ok(ChangedSpec(values0, items))
                  && values == UpsertSpec(values0, items)
                  && (if st.courtCount != prev.courtCount || st.courtNameFormat != prev.courtNameFormat
                      then ActiveCourtIds(courts) == SyncedIds(courts0, st.courtCount)
                           && CourtsInStep(courts, st.courtCount, st.courtNameFormat, format)
                      else courts == courts0)
            }
        }
    }
  }

  /** updateConfig on a list of items: an empty list does nothing; otherwise the stored
      settings are loaded and merged with the items, validated, the court table is
      reconciled when the count or the format changed, and the items are written back.
      The whole update is one transaction: on any error neither table changes. The keys
      reported changed are those the after-commit compensation acts on. */
  method UpdateConfig(db: Db, config: ConfigTable, items: seq<Option<ConfigItem>>,
                      parseTime: TimeParser, format: Formatter, now: SecondOfDay) returns (r: Result<set<ConfigKey>>)
    modifies db, config
    ensures db.reservations == old(db.reservations) && db.payOrders == old(db.payOrders)
    ensures db.slots == old(db.slots) && db.sessions == old(db.sessions)
    ensures |items| == 0 ==> r == Ok({}) && db.courts == old(db.courts) && config.values == old(config.values)
    ensures r.Err? ==> db.courts == old(db.courts) && config.values == old(config.values)
    ensures |items| > 0 ==>
      ConfigUpdated(old(db.courts), old(config.values), db.sessions, items, parseTime, format, now,
                    r, db.courts, config.values)
  {
    if |items| == 0 {
      return Ok({});
    }
    var load := LoadSettings(config.values, |ActiveCourtIds(db.courts)|, parseTime);
    if load.Err? {
      return Err(load.code);
    }
    var prev := load.value;
    var merged := MergeItems(prev, items, parseTime);
    if merged.Err? {
      return Err(merged.code);
    }
    var st := merged.value;
    if st.warmup < 0 {
      return Err(ParamError);
    }
    var sessionsOk := CheckSessions(st.warmup, st.generateTime, db.sessions);
    if sessionsOk.Err? {
      return Err(ParamError);
    }
    var courtsOk := ValidCourtConfig(st.courtCount, st.courtNameFormat, format);
    if courtsOk.Err? {
      return Err(ParamError);
    }
    if st.courtCount != prev.courtCount {
      var open := CanUpdateCourtCountNow(db.sessions, st.warmup, now);
      if !open {
        return Err(CourtCountUpdateWindowClosed);
      }
    }
    var savedCourts, savedConfig := db.courts, config.values;
    if st.courtCount != prev.courtCount || st.courtNameFormat != prev.courtNameFormat {
      SyncCourts(db, st.courtCount, st.courtNameFormat, format);
    }
    r := WriteBack(config, items);
    if r.Err? {
      // the transaction rolls back
      db.courts := savedCourts;
      config.values := savedConfig;
    }
  }

  /** The merge loop as a method. */
  method MergeItems(s: Settings, items: seq<Option<ConfigItem>>, parseTime: TimeParser) returns (r: Result<Settings>)
    ensures r == MergeSpec(s, items, parseTime)
  {
    var cur := s;
    var i := 0;
    while i < |items|
      invariant 0 <= i <= |items|
      invariant MergeSpec(s, items[..i], parseTime) == Ok(cur)
    {
      assert items[..i + 1][..i] == items[..i];
      var step := ApplyItem(cur, items[i], parseTime);
      if step.Err? {
        MergeErrSticks(s, items, i + 1, parseTime);
        return step;
      }
      cur := step.value;
      i := i + 1;
    }
    assert items[..i] == items;
    return Ok(cur);
  }

  /** Once the merge of a prefix fails, the merge of the whole list fails the same way. */
  lemma {:induction false} MergeErrSticks(s: Settings, items: seq<Option<ConfigItem>>, n: nat, parseTime: TimeParser)
    requires n <= |items| && MergeSpec(s, items[..n], parseTime).Err?
    ensures MergeSpec(s, items, parseTime) == MergeSpec(s, items[..n], parseTime)
    decreases |items| - n
  {
    if n < |items| {
      assert items[..n + 1][..n] == items[..n];
      MergeErrSticks(s, items, n + 1, parseTime);
    } else {
      assert items[..n] == items;
    }
  }

  /** updateConfig for a single item: an item with a null key or value does nothing. */
  method UpdateConfigItem(db: Db, config: ConfigTable, item: ConfigItem,
                          parseTime: TimeParser, format: Formatter, now: SecondOfDay) returns (r: Result<set<ConfigKey>>)
    modifies db, config
    ensures item.configKey.None? || item.text.None? ==>
      r == Ok({}) && db.courts == old(db.courts) && config.values == old(config.values)
    ensures item.configKey.Some? && item.text.Some? ==>
      ConfigUpdated(old(db.courts), old(config.values), db.sessions, [Some(item)], parseTime, format, now,
                    r, db.courts, config.values)
    ensures r.Err? ==> db.courts == old(db.courts) && config.values == old(config.values)
    ensures db.reservations == old(db.reservations) && db.payOrders == old(db.payOrders)
    ensures db.slots == old(db.slots) && db.sessions == old(db.sessions)
  {
    if item.configKey.None? || item.text.None? {
      return Ok({});
    }
    r := UpdateConfig(db, config, [Some(item)], parseTime, format, now);
  }
}
