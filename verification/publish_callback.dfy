/** ReservePublishCallbackHandler: the compensation that undoes a claim whose message
    did not reach the broker, and the choice of trace id in the confirm and return
    callbacks. */
module PublishCallback {
  import opened Common
  import opened Decimal
  import opened CacheStore

  /** The pending record the claim path stores under the trace id: "userId:slotId". */
  function EncodePending(userId: int, slotId: int): (rec: string)
    ensures ':' in rec
  {
    IntToString(userId) + ":" + IntToString(slotId)
  }

  /** String.split(":", 2): the text before the first ':' and everything after it; a
      string without ':' yields a single part. */
  function SplitFirst(s: string): (r: Option<(string, string)>)
    ensures r.None? <==> ':' !in s
    ensures r.Some? ==> ':' !in r.value.0 && r.value.0 + ":" + r.value.1 == s
  {
    if |s| == 0 then None
    else if s[0] == ':' then Some(("", s[1..]))
    else match SplitFirst(s[1..]) {
      case None => None
      case Some(parts) => Some(([s[0]] + parts.0, parts.1))
    }
  }

  /** The two integers of a pending record, or None where the handler gives up (fewer
      than two parts, or a part Integer.parseInt rejects). */
  function DecodePending(rec: string): (r: Option<(int, int)>)
    ensures r.Some? ==> InInt32(r.value.0) && InInt32(r.value.1)
    ensures ':' !in rec ==> r.None?
  {
    match SplitFirst(rec) {
      case None => None
      case Some(parts) =>
        match (ParseInt(parts.0), ParseInt(parts.1)) {
          case (Some(u), Some(s)) => Some((u, s))
          case _ => None
        }
    }
  }

  lemma {:induction false} SplitFirstOfJoin(a: string, b: string)
    requires ':' !in a
    ensures SplitFirst(a + ":" + b) == Some((a, b))
  {
    var s := a + ":" + b;
    if |a| == 0 {
      assert s[0] == ':' && s[1..] == b;
    } else {
      assert s[0] == a[0];
      assert s[1..] == a[1..] + ":" + b;
      SplitFirstOfJoin(a[1..], b);
      assert [a[0]] + a[1..] == a;
    }
  }

  /** A record whose first ':' follows the text a decodes exactly when a and the whole
      rest b both parse as Integers, and then to those two values. */
  lemma DecodePendingParts(a: string, b: string)
    requires ':' !in a
    ensures DecodePending(a + ":" + b).Some? <==> ParseInt(a).Some? && ParseInt(b).Some?
    ensures DecodePending(a + ":" + b).Some? ==>
      DecodePending(a + ":" + b).value == (ParseInt(a).value, ParseInt(b).value)
  {
    SplitFirstOfJoin(a, b);
  }

  /** Decoding recovers what the claim path encoded, for every pair of Integer ids. */
  lemma DecodeEncodePending(userId: int, slotId: int)
    requires InInt32(userId) && InInt32(slotId)
    ensures DecodePending(EncodePending(userId, slotId)) == Some((userId, slotId))
  {
    IntToStringNoColon(userId);
    DecodePendingParts(IntToString(userId), IntToString(slotId));
    ParseIntToString(userId);
    ParseIntToString(slotId);
  }

  /** compensateByTraceId: read and delete the pending record; if it decodes, the user
      leaves the slot's dedup set and one permit is released unconditionally. */
  function CompensateSpec(c: CacheView, traceId: string): (r: CacheView)
  {
    if traceId == "" || traceId !in c.pending then c
    else
      var consumed := c.(pending := c.pending - {traceId});
      match DecodePending(c.pending[traceId]) {
        case None => consumed
        case Some(ids) => Release(DedupRemove(consumed, ids.1, ids.0), ids.1)
      }
  }

  /** An empty trace id, or one without a pending record, changes nothing. */
  lemma CompensateWithoutRecord(c: CacheView, traceId: string)
    requires traceId == "" || traceId !in c.pending
    ensures CompensateSpec(c, traceId) == c
  {
  }

  /** The record is consumed by the first compensation, so a second one is a no-op. */
  lemma CompensateIdempotent(c: CacheView, traceId: string)
    ensures traceId != "" ==> traceId !in CompensateSpec(c, traceId).pending
    ensures CompensateSpec(CompensateSpec(c, traceId), traceId) == CompensateSpec(c, traceId)
  {
  }

  /** A record that does not decode is still consumed, and nothing else changes. */
  lemma CompensateMalformed(c: CacheView, traceId: string)
    requires traceId != "" && traceId in c.pending && DecodePending(c.pending[traceId]).None?
    ensures CompensateSpec(c, traceId) == c.(pending := c.pending - {traceId})
  {
  }

  /** A record written by the claim path removes that user from that slot's dedup set,
      adds exactly one permit to that slot, consumes the record, and touches nothing else. */
  lemma CompensateValid(c: CacheView, traceId: string, userId: int, slotId: int)
    requires InInt32(userId) && InInt32(slotId)
    requires traceId != "" && traceId in c.pending && c.pending[traceId] == EncodePending(userId, slotId)
    ensures var r := CompensateSpec(c, traceId);
      && Members(r, slotId) == Members(c, slotId) - {userId}
      && r.permits == c.permits[slotId := (if slotId in c.permits then c.permits[slotId] else 0) + 1]
      && r.pending == c.pending - {traceId}
      && (forall s :: s != slotId ==> Members(r, s) == Members(c, s))
      && r.binding == c.binding && r.gate == c.gate && r.gateTime == c.gateTime
      && r.slotWarm == c.slotWarm && r.sessionWarmDone == c.sessionWarmDone && r.slotGenDone == c.slotGenDone
  {
    DecodeEncodePending(userId, slotId);
    CompensateDecoded(c, traceId, userId, slotId);
  }

  lemma CompensateDecoded(c: CacheView, traceId: string, userId: int, slotId: int)
    requires traceId != "" && traceId in c.pending && DecodePending(c.pending[traceId]) == Some((userId, slotId))
    ensures var r := CompensateSpec(c, traceId);
      && Members(r, slotId) == Members(c, slotId) - {userId}
      && r.permits == c.permits[slotId := (if slotId in c.permits then c.permits[slotId] else 0) + 1]
      && r.pending == c.pending - {traceId}
      && (forall s :: s != slotId ==> Members(r, s) == Members(c, s))
      && r.binding == c.binding && r.gate == c.gate && r.gateTime == c.gateTime
      && r.slotWarm == c.slotWarm && r.sessionWarmDone == c.sessionWarmDone && r.slotGenDone == c.slotGenDone
  {
    var consumed := c.(pending := c.pending - {traceId});
    ConsumeAndRelease(c, traceId, userId, slotId);
    assert CompensateSpec(c, traceId) == Release(DedupRemove(consumed, slotId, userId), slotId);
  }

  /** Consuming the record, removing the user and releasing one permit, in that order. */
  lemma ConsumeAndRelease(c: CacheView, traceId: string, userId: int, slotId: int)
    ensures var r := Release(DedupRemove(c.(pending := c.pending - {traceId}), slotId, userId), slotId);
      && Members(r, slotId) == Members(c, slotId) - {userId}
      && r.permits == c.permits[slotId := (if slotId in c.permits then c.permits[slotId] else 0) + 1]
      && r.pending == c.pending - {traceId}
      && (forall s :: s != slotId ==> Members(r, s) == Members(c, s))
      && r.binding == c.binding && r.gate == c.gate && r.gateTime == c.gateTime
      && r.slotWarm == c.slotWarm && r.sessionWarmDone == c.sessionWarmDone && r.slotGenDone == c.slotGenDone
  {
    var consumed := c.(pending := c.pending - {traceId});
    var removed := DedupRemove(consumed, slotId, userId);
    var r := Release(removed, slotId);
    assert removed.permits == c.permits && removed.pending == consumed.pending;
    assert r.dedup == removed.dedup;
    forall s
      ensures Members(r, s) == Members(removed, s)
    {
    }
  }

  /** clearPending: drop the record without compensating. */
  function ClearPendingSpec(c: CacheView, traceId: string): (r: CacheView)
    ensures traceId != "" ==> traceId !in r.pending
  {
    if traceId == "" then c else c.(pending := c.pending - {traceId})
  }

  /** After clearPending, compensating the same trace id does nothing. */
  lemma CompensateAfterClear(c: CacheView, traceId: string)
    ensures CompensateSpec(ClearPendingSpec(c, traceId), traceId) == ClearPendingSpec(c, traceId)
  {
  }

  /** Independent reference for the fallback chains: the first candidate that is
      present and non-empty. */
  function FirstPresent(candidates: seq<Option<string>>): (r: Option<string>)
    ensures r.Some? ==> r.value != "" && exists i :: 0 <= i < |candidates| && candidates[i] == r
    ensures r.None? <==> forall i :: 0 <= i < |candidates| ==> candidates[i].None? || candidates[i].value == ""
  {
    if |candidates| == 0 then None
    else if candidates[0].Some? && candidates[0].value != "" then candidates[0]
    else
      var rest := FirstPresent(candidates[1..]);
      assert forall i :: 1 <= i < |candidates| ==> candidates[i] == candidates[1..][i - 1];
      rest
  }

  /** onConfirm: only a nack with correlation data names a trace to compensate. */
  function ConfirmTrace(correlationId: Option<string>, ack: bool): (t: Option<string>)
    ensures t.Some? <==> !ack && correlationId.Some?
    ensures t.Some? ==> t == correlationId
  {
    if ack || correlationId.None? then None else correlationId
  }

  /** A returned message as the return callback sees it: None when there is no message. */
  datatype ReturnedMessage = ReturnedMessage(messageId: Option<string>, traceHeader: Option<string>)

  /** onReturned: the message id, else the traceId header; None when both are missing or
      empty. */
  function ReturnedTrace(returned: Option<ReturnedMessage>): (t: Option<string>)
  {
    if returned.None? then None
    else
      var m := returned.value;
      var fromId := m.messageId;
      var chosen := if fromId.None? || fromId.value == "" then m.traceHeader else fromId;
      if chosen.None? || chosen.value == "" then None else chosen
  }

  lemma ReturnedTraceIsFirstPresent(m: ReturnedMessage)
    ensures ReturnedTrace(Some(m)) == FirstPresent([m.messageId, m.traceHeader])
  {
    assert [m.messageId, m.traceHeader][1..] == [m.traceHeader];
    assert [m.traceHeader][1..] == [];
  }

  /** Compensation as the handler performs it, step by step on the cache server. */
  method Compensate(cache: Cache, traceId: string)
    modifies cache
    ensures cache.View() == CompensateSpec(old(cache.View()), traceId)
  {
    if traceId == "" {
      return;
    }
    var rec := cache.TakePending(traceId);
    if rec.None? || rec.value == "" {
      return;
    }
    var parts := SplitFirst(rec.value);
    if parts.None? {
      return;
    }
    var userId := ParseInt(parts.value.0);
    var slotId := ParseInt(parts.value.1);
    if userId.None? || slotId.None? {
      return;
    }
    cache.RemoveMember(slotId.value, userId.value);
    cache.ReleasePermit(slotId.value);
  }

  method ClearPending(cache: Cache, traceId: string)
    modifies cache
    ensures cache.View() == ClearPendingSpec(old(cache.View()), traceId)
  {
    if traceId == "" {
      return;
    }
    cache.DeletePending(traceId);
  }

  method OnConfirm(cache: Cache, correlationId: Option<string>, ack: bool)
    modifies cache
    ensures ack || correlationId.None? ==> cache.View() == old(cache.View())
    ensures !ack && correlationId.Some? ==> cache.View() == CompensateSpec(old(cache.View()), correlationId.value)
  {
    var t := ConfirmTrace(correlationId, ack);
    if t.Some? {
      Compensate(cache, t.value);
    }
  }

  method OnReturned(cache: Cache, returned: Option<ReturnedMessage>)
    modifies cache
    ensures ReturnedTrace(returned).None? ==> cache.View() == old(cache.View())
    ensures ReturnedTrace(returned).Some? ==> cache.View() == CompensateSpec(old(cache.View()), ReturnedTrace(returned).value)
  {
    var t := ReturnedTrace(returned);
    if t.Some? {
      Compensate(cache, t.value);
    }
  }
}
