/** The cache key scheme. Every key starts with "bf:", each builder is injective in its
    arguments, and builders of different families never produce the same key; this is
    what lets the cache be modelled as one typed map per key family (module CacheStore). */
module RedisKeys {
  import opened Common
  import opened Decimal

  const Prefix: string := "bf:"

  function Pow10(w: nat): (p: nat)
    ensures p >= 1
  {
    if w == 0 then 1 else 10 * Pow10(w - 1)
  }

  /** The w low decimal digits of n, zero-padded on the left. */
  function Padded(n: nat, w: nat): (s: string)
    ensures |s| == w && AllDigits(s)
  {
    if w == 0 then "" else Padded(n / 10, w - 1) + [DigitChar(n % 10)]
  }

  /** DateTimes.yyyymmdd: the ISO form of the date with its dashes removed. */
  function Yyyymmdd(d: Date): (s: string)
    requires ValidDate(d)
  {
    Padded(d.year, 4) + Padded(d.month, 2) + Padded(d.day, 2)
  }

  function SemKey(slotId: int): string { Prefix + "sem:" + IntToString(slotId) }
  function DedupKey(slotId: int): string { Prefix + "dedup:" + IntToString(slotId) }
  function SlotSessionKey(slotId: int): string { Prefix + "slot:session:" + IntToString(slotId) }
  function GateKey(sessionId: int): string { Prefix + "gate:" + IntToString(sessionId) }
  function GateTimeKey(sessionId: int): string { Prefix + "gate:time:" + IntToString(sessionId) }
  function WarmupDoneKey(slotId: int): string { Prefix + "warmup:done:" + IntToString(slotId) }

  function WarmupSessionDoneKey(day: Date, sessionId: int): string
    requires ValidDate(day)
  {
    Prefix + "warmup:done:" + Yyyymmdd(day) + ":" + IntToString(sessionId)
  }

  function WarmupSessionLockKey(day: Date, sessionId: int): string
    requires ValidDate(day)
  {
    Prefix + "warmup:lock:" + Yyyymmdd(day) + ":" + IntToString(sessionId)
  }

  function SlotGenDoneKey(day: Date, sessionId: int): string
    requires ValidDate(day)
  {
    Prefix + "slotgen:done:" + Yyyymmdd(day) + ":" + IntToString(sessionId)
  }

  function SlotGenLockKey(day: Date, sessionId: int): string
    requires ValidDate(day)
  {
    Prefix + "slotgen:lock:" + Yyyymmdd(day) + ":" + IntToString(sessionId)
  }

  function LimitKey(userKey: string): string { Prefix + "limit:" + userKey }

  /** The builders below are used by the services but not declared by the key class of
      this revision; they follow the same prefixed scheme. */
  function ReservePendingKey(traceId: string): string { Prefix + "reserve:pending:" + traceId }
  function PayCreateLockKey(reservationId: int): string { Prefix + "pay:create:lock:" + IntToString(reservationId) }
  function CourtBootstrapLockKey(): string { Prefix + "court:bootstrap:lock" }

  /** ttlToEndOfDaySeconds: the seconds from now to the end of the day, never less than
      one minute. */
  function TtlToEndOfDaySeconds(endOfDay: Instant, now: Instant): (ttl: int)
    ensures ttl >= 60
    ensures ttl >= endOfDay - now
    ensures ttl == endOfDay - now || ttl == 60
  {
    if endOfDay - now > 60 then endOfDay - now else 60
  }

  predicate StartsWith(s: string, p: string) {
    |p| <= |s| && s[..|p|] == p
  }

  lemma EveryKeyIsPrefixed(id: int, day: Date, text: string)
    requires ValidDate(day)
    ensures StartsWith(SemKey(id), Prefix) && StartsWith(DedupKey(id), Prefix)
    ensures StartsWith(SlotSessionKey(id), Prefix) && StartsWith(GateKey(id), Prefix)
    ensures StartsWith(GateTimeKey(id), Prefix) && StartsWith(WarmupDoneKey(id), Prefix)
    ensures StartsWith(WarmupSessionDoneKey(day, id), Prefix)
    ensures StartsWith(WarmupSessionLockKey(day, id), Prefix)
    ensures StartsWith(SlotGenDoneKey(day, id), Prefix)
    ensures StartsWith(SlotGenLockKey(day, id), Prefix)
    ensures StartsWith(LimitKey(text), Prefix) && StartsWith(ReservePendingKey(text), Prefix)
    ensures StartsWith(PayCreateLockKey(id), Prefix) && StartsWith(CourtBootstrapLockKey(), Prefix)
  {
    var n, d := IntToString(id), Yyyymmdd(day);
    KeyPrefixed("sem:", n);
    KeyPrefixed("dedup:", n);
    KeyPrefixed("slot:session:", n);
    KeyPrefixed("gate:", n);
    KeyPrefixed("gate:time:", n);
    KeyPrefixed("warmup:done:", n);
    DatedKeyPrefixed("warmup:done:", d, n);
    DatedKeyPrefixed("warmup:lock:", d, n);
    DatedKeyPrefixed("slotgen:done:", d, n);
    DatedKeyPrefixed("slotgen:lock:", d, n);
    KeyPrefixed("limit:", text);
    KeyPrefixed("reserve:pending:", text);
    KeyPrefixed("pay:create:lock:", n);
    assert (Prefix + "court:bootstrap:lock")[..|Prefix|] == Prefix;
  }

  /** A key made of the prefix, a family head and a tail starts with the prefix. */
  lemma KeyPrefixed(head: string, tail: string)
    ensures StartsWith(Prefix + head + tail, Prefix)
  {
    assert (Prefix + head + tail)[..|Prefix|] == Prefix;
  }

  /** The same for a key with a day and an id after the family head. */
  lemma DatedKeyPrefixed(head: string, day: string, tail: string)
    ensures StartsWith(Prefix + head + day + ":" + tail, Prefix)
  {
    assert (Prefix + head + day + ":" + tail)[..|Prefix|] == Prefix;
  }

  /** Two keys with the same fixed head are equal only if their tails are. */
  lemma TailsEqual(head: string, a: string, b: string)
    requires head + a == head + b
    ensures a == b
  {
    assert a == (head + a)[|head|..];
    assert b == (head + b)[|head|..];
  }

  /** Each per-slot builder is injective in the slot id. */
  lemma PerSlotKeysInjective(a: int, b: int)
    requires SemKey(a) == SemKey(b) || DedupKey(a) == DedupKey(b)
          || SlotSessionKey(a) == SlotSessionKey(b) || WarmupDoneKey(a) == WarmupDoneKey(b)
    ensures a == b
  {
    var h := if SemKey(a) == SemKey(b) then Prefix + "sem:"
      else if DedupKey(a) == DedupKey(b) then Prefix + "dedup:"
      else if SlotSessionKey(a) == SlotSessionKey(b) then Prefix + "slot:session:"
      else Prefix + "warmup:done:";
    TailsEqual(h, IntToString(a), IntToString(b));
    IntToStringInjective(a, b);
  }

  /** The per-slot families never share a key, whatever the two slot ids. */
  lemma PerSlotFamiliesDisjoint(a: int, b: int)
    ensures SemKey(a) != DedupKey(b) && SemKey(a) != SlotSessionKey(b) && SemKey(a) != WarmupDoneKey(b)
    ensures DedupKey(a) != SlotSessionKey(b) && DedupKey(a) != WarmupDoneKey(b)
    ensures SlotSessionKey(a) != WarmupDoneKey(b)
  {
    assert SemKey(a)[4] == 'e' && SlotSessionKey(b)[4] == 'l';
    assert SemKey(a)[3] == 's' && DedupKey(b)[3] == 'd' && WarmupDoneKey(b)[3] == 'w';
    assert SlotSessionKey(a)[3] == 's' && DedupKey(a)[3] == 'd';
  }

  /** A gate key is never a gate-time key: after "bf:gate:" the one continues with a
      digit or '-', the other with "time:". */
  lemma GateKeyNotGateTimeKey(n: int, m: int)
    ensures GateKey(n) != GateTimeKey(m)
  {
    IntToStringNoColon(n);
    assert GateKey(n)[8] == IntToString(n)[0];
    assert GateTimeKey(m)[8] == 't';
  }

  lemma ColonFreeSuffix(head: string, tail: string, i: int)
    requires ':' !in tail && |head| <= i < |head + tail|
    ensures (head + tail)[i] != ':'
  {
    assert (head + tail)[i] == tail[i - |head|];
  }

  /** A slot's warm flag is never a session's warmup-done flag: only the latter has a
      second ':' after "bf:warmup:done:". */
  lemma WarmupDoneKeyNotSessionDoneKey(slotId: int, day: Date, sessionId: int)
    requires ValidDate(day)
    ensures WarmupDoneKey(slotId) != WarmupSessionDoneKey(day, sessionId)
  {
    var head := Prefix + "warmup:done:";
    var k2 := WarmupSessionDoneKey(day, sessionId);
    IntToStringNoColon(slotId);
    IntToStringNoColon(sessionId);
    assert k2[|head| + 8] == ':';
    if |WarmupDoneKey(slotId)| > |head| + 8 {
      ColonFreeSuffix(head, IntToString(slotId), |head| + 8);
    }
  }

  /** For any days and sessions, lock keys differ from done keys, and warmup keys differ
      from slot-generation keys. */
  lemma JobKeysDistinct(d1: Date, s1: int, d2: Date, s2: int)
    requires ValidDate(d1) && ValidDate(d2)
    ensures WarmupSessionLockKey(d1, s1) != WarmupSessionDoneKey(d2, s2)
    ensures SlotGenLockKey(d1, s1) != SlotGenDoneKey(d2, s2)
    ensures WarmupSessionLockKey(d1, s1) != SlotGenLockKey(d2, s2)
    ensures WarmupSessionDoneKey(d1, s1) != SlotGenDoneKey(d2, s2)
    ensures WarmupSessionLockKey(d1, s1) != SlotGenDoneKey(d2, s2)
    ensures WarmupSessionDoneKey(d1, s1) != SlotGenLockKey(d2, s2)
  {
    assert WarmupSessionLockKey(d1, s1)[10] == 'l' && WarmupSessionDoneKey(d2, s2)[10] == 'd';
    assert SlotGenLockKey(d1, s1)[11] == 'l' && SlotGenDoneKey(d2, s2)[11] == 'd';
    assert WarmupSessionLockKey(d1, s1)[3] == 'w' && SlotGenLockKey(d2, s2)[3] == 's';
    assert WarmupSessionDoneKey(d1, s1)[3] == 'w' && SlotGenDoneKey(d2, s2)[3] == 's';
  }

  lemma {:induction false} ValueOfPadded(n: nat, w: nat)
    requires n < Pow10(w)
    ensures ValueOf(Padded(n, w)) == n
  {
    if w > 0 {
      var s, q := Padded(n, w), n / 10;
      assert s[..|s| - 1] == Padded(q, w - 1);
      assert DigitValue(s[|s| - 1]) == n % 10;
      assert n < 10 * Pow10(w - 1);
      assert q < Pow10(w - 1);
      ValueOfPadded(q, w - 1);
      assert ValueOf(s) == q * 10 + n % 10;
    }
  }

  /** Distinct valid dates have distinct yyyyMMdd stamps. */
  lemma YyyymmddInjective(a: Date, b: Date)
    requires ValidDate(a) && ValidDate(b) && Yyyymmdd(a) == Yyyymmdd(b)
    ensures a == b
  {
    var sa, sb := Yyyymmdd(a), Yyyymmdd(b);
    assert sa[..4] == Padded(a.year, 4) && sb[..4] == Padded(b.year, 4);
    assert sa[4..6] == Padded(a.month, 2) && sb[4..6] == Padded(b.month, 2);
    assert sa[6..] == Padded(a.day, 2) && sb[6..] == Padded(b.day, 2);
    ValueOfPadded(a.year, 4); ValueOfPadded(b.year, 4);
    ValueOfPadded(a.month, 2); ValueOfPadded(b.month, 2);
    ValueOfPadded(a.day, 2); ValueOfPadded(b.day, 2);
  }

  /** The per-(day, session) keys are injective in the pair; shown for the session
      warmup-done flag, the other three share its shape after their fixed heads. */
  lemma DaySessionKeyInjective(head: string, d1: Date, s1: int, d2: Date, s2: int)
    requires ValidDate(d1) && ValidDate(d2)
    requires head + Yyyymmdd(d1) + ":" + IntToString(s1) == head + Yyyymmdd(d2) + ":" + IntToString(s2)
    ensures d1 == d2 && s1 == s2
  {
    var k1 := head + Yyyymmdd(d1) + ":" + IntToString(s1);
    var k2 := head + Yyyymmdd(d2) + ":" + IntToString(s2);
    assert k1[|head|..|head| + 8] == Yyyymmdd(d1);
    assert k2[|head|..|head| + 8] == Yyyymmdd(d2);
    YyyymmddInjective(d1, d2);
    assert k1[|head| + 9..] == IntToString(s1);
    assert k2[|head| + 9..] == IntToString(s2);
    IntToStringInjective(s1, s2);
  }

  lemma DaySessionKeysInjective(d1: Date, s1: int, d2: Date, s2: int)
    requires ValidDate(d1) && ValidDate(d2)
    requires WarmupSessionDoneKey(d1, s1) == WarmupSessionDoneKey(d2, s2)
          || WarmupSessionLockKey(d1, s1) == WarmupSessionLockKey(d2, s2)
          || SlotGenDoneKey(d1, s1) == SlotGenDoneKey(d2, s2)
          || SlotGenLockKey(d1, s1) == SlotGenLockKey(d2, s2)
    ensures d1 == d2 && s1 == s2
  {
    var head := if WarmupSessionDoneKey(d1, s1) == WarmupSessionDoneKey(d2, s2) then Prefix + "warmup:done:"
      else if WarmupSessionLockKey(d1, s1) == WarmupSessionLockKey(d2, s2) then Prefix + "warmup:lock:"
      else if SlotGenDoneKey(d1, s1) == SlotGenDoneKey(d2, s2) then Prefix + "slotgen:done:"
      else Prefix + "slotgen:lock:";
    assert head + Yyyymmdd(d1) + ":" + IntToString(s1) == head + Yyyymmdd(d2) + ":" + IntToString(s2);
    DaySessionKeyInjective(head, d1, s1, d2, s2);
  }
}
