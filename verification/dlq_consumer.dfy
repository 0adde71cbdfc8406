/** ReserveDlqConsumer: a claim message that exhausted its delivery attempts is
    compensated by its trace id, found through a fallback chain. */
module DlqConsumer {
  import opened Common
  import opened CacheStore
  import opened PublishCallback

  /** What the dead-letter listener receives. The payload is None when it could not be
      bound; a trace id or header is None when absent; headers is None when the message
      carries no header map at all. */
  datatype DeadLetter = DeadLetter(
    payloadTraceId: Option<string>,
    messageId: Option<string>,
    headers: Option<map<string, string>>)

  predicate Missing(t: Option<string>) {
    t.None? || t.value == ""
  }

  /** The chain as written: the payload's trace id; if missing, the message id replaces
      it; if still missing and there are headers, the "traceId" header replaces it. */
  function DlqTraceId(m: DeadLetter): Option<string> {
    var fromPayload := m.payloadTraceId;
    var fromId := if Missing(fromPayload) then m.messageId else fromPayload;
    var fromHeader :=
      if Missing(fromId) && m.headers.Some? then
        (if "traceId" in m.headers.value then Some(m.headers.value["traceId"]) else None)
      else fromId;
    if Missing(fromHeader) then None else fromHeader
  }

  function HeaderTraceId(m: DeadLetter): Option<string> {
    if m.headers.Some? && "traceId" in m.headers.value then Some(m.headers.value["traceId"]) else None
  }

  /** The chain picks the first present, non-empty candidate in the order payload,
      message id, header; an empty string counts as missing at every step. */
  lemma DlqTraceIdIsFirstPresent(m: DeadLetter)
    ensures DlqTraceId(m) == FirstPresent([m.payloadTraceId, m.messageId, HeaderTraceId(m)])
  {
    var cs := [m.payloadTraceId, m.messageId, HeaderTraceId(m)];
    assert cs[1..] == [m.messageId, HeaderTraceId(m)];
    assert cs[1..][1..] == [HeaderTraceId(m)];
    assert cs[1..][1..][1..] == [];
    assert FirstPresent(cs[1..][1..]) == (if Missing(HeaderTraceId(m)) then None else HeaderTraceId(m));
    assert FirstPresent(cs[1..]) == (if Missing(m.messageId) then FirstPresent(cs[1..][1..]) else m.messageId);
  }

  /** handleDlq: no compensation without a trace id, exactly one with it. */
  method HandleDlq(cache: Cache, m: DeadLetter)
    modifies cache
    ensures DlqTraceId(m).None? ==> cache.View() == old(cache.View())
    ensures DlqTraceId(m).Some? ==> cache.View() == CompensateSpec(old(cache.View()), DlqTraceId(m).value)
  {
    var traceId: Option<string> := None;
    traceId := m.payloadTraceId;
    if Missing(traceId) {
      traceId := m.messageId;
    }
    if Missing(traceId) && m.headers.Some? {
      traceId := if "traceId" in m.headers.value then Some(m.headers.value["traceId"]) else None;
    }
    if Missing(traceId) {
      return;
    }
    Compensate(cache, traceId.value);
  }
}
