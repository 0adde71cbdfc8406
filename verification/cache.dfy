/** The in-memory stand-in for the cache server. Each key family of module RedisKeys is
    one map or set here (the families are disjoint and their builders injective, so no two
    entries can share a key). Expiry is not modelled: entries live until deleted.

    Store semantics kept from the server:
    - a set whose last member is removed ceases to exist;
    - acquiring a permit from a semaphore that does not exist fails;
    - releasing a permit on a semaphore that does not exist creates it with one permit;
    - setting the permit count only succeeds on a semaphore that does not exist. */
module CacheStore {
  import opened Common

  datatype CacheView = CacheView(
    binding: map<int, int>,              // slot id -> session id
    gate: map<int, string>,              // session id -> "0" or "1"
    gateTime: map<int, int>,             // session id -> epoch second of the flash time
    dedup: map<int, set<int>>,           // slot id -> users holding or attempting a claim
    permits: map<int, int>,              // slot id -> remaining permits
    pending: map<string, string>,        // trace id -> "userId:slotId"
    slotWarm: set<int>,                  // slot ids whose warm flag is set
    sessionWarmDone: set<(Date, int)>,   // (day, session id) warmup-done flags
    slotGenDone: set<(Date, int)>)       // (day, session id) slot-generation-done flags

  /** The server never stores an empty set. */
  predicate WellFormed(c: CacheView) {
    forall s :: s in c.dedup ==> c.dedup[s] != {}
  }

  function Members(c: CacheView, slotId: int): set<int> {
    if slotId in c.dedup then c.dedup[slotId] else {}
  }

  /** Adding to a set creates it when absent. */
  function DedupAdd(c: CacheView, slotId: int, userId: int): (r: CacheView)
    ensures Members(r, slotId) == Members(c, slotId) + {userId}
    ensures r.dedup.Keys == c.dedup.Keys + {slotId}
    ensures forall s :: s != slotId ==> Members(r, s) == Members(c, s)
  {
    c.(dedup := c.dedup[slotId := Members(c, slotId) + {userId}])
  }

  /** Adding a member that is already present leaves the cache as it was. */
  lemma DedupAddExisting(c: CacheView, slotId: int, userId: int)
    requires userId in Members(c, slotId)
    ensures DedupAdd(c, slotId, userId) == c
  {
    assert Members(c, slotId) + {userId} == c.dedup[slotId];
  }

  /** Removing from a set deletes it when it becomes empty. */
  function DedupRemove(c: CacheView, slotId: int, userId: int): (r: CacheView)
    ensures Members(r, slotId) == Members(c, slotId) - {userId}
    ensures slotId in r.dedup <==> Members(c, slotId) - {userId} != {}
    ensures forall s :: s != slotId ==> (s in r.dedup <==> s in c.dedup) && Members(r, s) == Members(c, s)
    ensures WellFormed(c) ==> WellFormed(r)
  {
    var rest := Members(c, slotId) - {userId};
    if rest == {} then c.(dedup := c.dedup - {slotId}) else c.(dedup := c.dedup[slotId := rest])
  }

  predicate CanAcquire(c: CacheView, slotId: int) {
    slotId in c.permits && c.permits[slotId] > 0
  }

  function Acquire(c: CacheView, slotId: int): (r: CacheView)
    requires CanAcquire(c, slotId)
    ensures r.permits.Keys == c.permits.Keys
    ensures r.permits[slotId] == c.permits[slotId] - 1 >= 0
  {
    c.(permits := c.permits[slotId := c.permits[slotId] - 1])
  }

  /** A release adds one permit, creating the semaphore when absent. */
  function Release(c: CacheView, slotId: int): (r: CacheView)
    ensures slotId in r.permits
    ensures r.permits[slotId] == (if slotId in c.permits then c.permits[slotId] else 0) + 1
    ensures r.permits.Keys == c.permits.Keys + {slotId}
  {
    c.(permits := c.permits[slotId := (if slotId in c.permits then c.permits[slotId] else 0) + 1])
  }

  /** Releasing the permit just acquired restores the semaphore. */
  lemma ReleaseUndoesAcquire(c: CacheView, slotId: int)
    requires CanAcquire(c, slotId)
    ensures Release(Acquire(c, slotId), slotId) == c
  {
    var p := Acquire(c, slotId).permits;
    assert p[slotId := p[slotId] + 1] == c.permits;
  }

  /** The guarded release used by cancellation and refund: only an existing semaphore. */
  function ReleaseIfExists(c: CacheView, slotId: int): (r: CacheView)
    ensures r.permits.Keys == c.permits.Keys
    ensures slotId in c.permits ==> r.permits[slotId] == c.permits[slotId] + 1
    ensures slotId !in c.permits ==> r == c
  {
    if slotId in c.permits then Release(c, slotId) else c
  }

  /** releaseReserveResource: the user leaves the slot's dedup set and, if the semaphore
      still exists, one permit returns to it. Shared by cancellation, timeout and refund. */
  function ReleaseReserveResourceSpec(c: CacheView, userId: int, slotId: int): (r: CacheView)
    ensures userId !in Members(r, slotId)
    ensures r.permits.Keys == c.permits.Keys
    ensures slotId in c.permits ==> r.permits[slotId] == c.permits[slotId] + 1
    ensures r.binding == c.binding && r.gate == c.gate && r.pending == c.pending
  {
    ReleaseIfExists(DedupRemove(c, slotId, userId), slotId)
  }

  /** A gate is open when its value is "1". */
  predicate GateOpen(c: CacheView, sessionId: int) {
    sessionId in c.gate && c.gate[sessionId] == "1"
  }

  /** From c to r no gate was closed or changed except by opening, every gate added is
      "0" or "1", a gate opened belongs to a session at a position in ix whose done flag
      for today exists, the done flags only grow and the pending records are the same. */
  ghost predicate OnlyOpensWarmed(c: CacheView, r: CacheView, today: Date, ix: seq<nat>) {
    && (forall q :: q in c.gate ==> q in r.gate && (r.gate[q] == c.gate[q] || r.gate[q] == "1"))
    && (forall q :: q in r.gate && q !in c.gate ==> r.gate[q] == "0" || r.gate[q] == "1")
    && (forall q :: GateOpen(r, q) && !GateOpen(c, q) ==> (today, q) in r.sessionWarmDone && q - 1 in ix)
    && c.sessionWarmDone <= r.sessionWarmDone
    && r.pending == c.pending
  }

  lemma OnlyOpensWarmedTrans(a: CacheView, b: CacheView, c: CacheView, today: Date, xs: seq<nat>, ys: seq<nat>)
    requires OnlyOpensWarmed(a, b, today, xs) && OnlyOpensWarmed(b, c, today, ys)
    ensures OnlyOpensWarmed(a, c, today, xs + ys)
  {
    forall q | GateOpen(c, q) && !GateOpen(a, q)
      ensures (today, q) in c.sessionWarmDone && q - 1 in xs + ys
    {
      if GateOpen(b, q) {
        assert q - 1 in xs;
      } else {
        assert q - 1 in ys;
      }
    }
  }

  /** The cache server, one field per key family. */
  class Cache {
    var binding: map<int, int>
    var gate: map<int, string>
    var gateTime: map<int, int>
    var dedup: map<int, set<int>>
    var permits: map<int, int>
    var pending: map<string, string>
    var slotWarm: set<int>
    var sessionWarmDone: set<(Date, int)>
    var slotGenDone: set<(Date, int)>

    function View(): CacheView
      reads this
    {
      CacheView(binding, gate, gateTime, dedup, permits, pending, slotWarm, sessionWarmDone, slotGenDone)
    }

    constructor ()
      ensures View() == CacheView(map[], map[], map[], map[], map[], map[], {}, {}, {})
    {
      binding, gate, gateTime, dedup, permits := map[], map[], map[], map[], map[];
      pending, slotWarm, sessionWarmDone, slotGenDone := map[], {}, {}, {};
    }

    /** RSet.add: true when the user was not yet a member. */
    method AddMember(slotId: int, userId: int) returns (added: bool)
      modifies this
      ensures added <==> userId !in Members(old(View()), slotId)
      ensures View() == DedupAdd(old(View()), slotId, userId)
    {
      added := userId !in Members(View(), slotId);
      dedup := DedupAdd(View(), slotId, userId).dedup;
    }

    /** RSet.remove. */
    method RemoveMember(slotId: int, userId: int)
      modifies this
      ensures View() == DedupRemove(old(View()), slotId, userId)
    {
      dedup := DedupRemove(View(), slotId, userId).dedup;
    }

    /** RSemaphore.tryAcquire: takes one permit when the semaphore exists and has one. */
    method TryAcquire(slotId: int) returns (got: bool)
      modifies this
      ensures got <==> CanAcquire(old(View()), slotId)
      ensures View() == if got then Acquire(old(View()), slotId) else old(View())
    {
      got := CanAcquire(View(), slotId);
      if got {
        permits := permits[slotId := permits[slotId] - 1];
      }
    }

    /** RSemaphore.release. */
    method ReleasePermit(slotId: int)
      modifies this
      ensures View() == Release(old(View()), slotId)
    {
      permits := Release(View(), slotId).permits;
    }

    /** RSemaphore.trySetPermits: only initialises a semaphore that does not exist. */
    method TrySetPermits(slotId: int, n: int) returns (initialised: bool)
      modifies this
      ensures initialised <==> slotId !in old(permits)
      ensures View() == old(View()).(permits := if initialised then old(permits)[slotId := n] else old(permits))
    {
      initialised := slotId !in permits;
      if initialised {
        permits := permits[slotId := n];
      }
    }

    method SetPending(traceId: string, rec: string)
      modifies this
      ensures View() == old(View()).(pending := old(pending)[traceId := rec])
    {
      pending := pending[traceId := rec];
    }

    /** RBucket.getAndDelete on a pending record. */
    method TakePending(traceId: string) returns (rec: Option<string>)
      modifies this
      ensures rec == if traceId in old(pending) then Some(old(pending)[traceId]) else None
      ensures View() == old(View()).(pending := old(pending) - {traceId})
    {
      rec := if traceId in pending then Some(pending[traceId]) else None;
      pending := pending - {traceId};
    }

    method DeletePending(traceId: string)
      modifies this
      ensures View() == old(View()).(pending := old(pending) - {traceId})
    {
      pending := pending - {traceId};
    }
  }
}
