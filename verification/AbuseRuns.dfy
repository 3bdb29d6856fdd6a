/** Runs of mixed requests, and what one of them does to the keys in Redis. */
module AbuseRuns {
  import opened Seqs
  import opened FixedWindow
  import opened TransferModel
  import opened AbusePolicy

  /** The row of a new call: its phone is the stored form of the text that was checked. */
  datatype NewRow = NewRow(phone: string, at: nat)

  /**
   Requests and what happens to calls meanwhile; an accepted call may get a row, some time after the check. Inbound
   calls and the other endpoints insert rows without a check.
   */
  datatype Event =
    | PlaceCall(apiKey: string, phone: string, browser: bool, ip: string, reach: Reach, row: Option<NewRow>)
    | Unchecked(inserted: NewRow)
    | RequestTransfer(transferPhone: string, reach: Reach)
    | Steer(callId: string, reach: Reach)
    | StatusChange(index: nat, status: CallStatus)

  datatype Timed = Timed(at: nat, event: Event)

  datatype System = System(store: Store, calls: seq<Call>)

  const START := System(map[], [])

  /** The store and verdict of an event; what is not checked is always accepted. */
  function Check(c: Settings, redis: bool, s: System, e: Timed): (Store, Verdict) {
    match e.event
    case PlaceCall(apiKey, phone, _, ip, reach, _) =>
      CallCreate(c, redis, s.store, s.calls, apiKey, phone, ip, e.at, reach)
    case RequestTransfer(phone, reach) => TransferCheck(c, redis, s.store, phone, e.at, reach)
    case Steer(callId, reach) => SteerCheck(c, redis, s.store, callId, e.at, reach)
    case Unchecked(_) => (s.store, Accepted)
    case StatusChange(_, _) => (s.store, Accepted)
  }

  /** A request gets a row only if its check accepts, and a terminal status is never left. */
  function NextCalls(s: System, e: Timed, verdict: Verdict): seq<Call> {
    match e.event
    case PlaceCall(_, _, _, _, _, Some(row)) =>
      if verdict.Accepted? then s.calls + [Call(row.phone, Created, row.at)] else s.calls
    case Unchecked(row) => s.calls + [Call(row.phone, Created, row.at)]
    case StatusChange(i, status) =>
      if i < |s.calls| && !Terminal(s.calls[i].status) then s.calls[i := s.calls[i].(status := status)] else s.calls
    case _ => s.calls
  }

  function Step(c: Settings, redis: bool, s: System, e: Timed): System {
    var (store, verdict) := Check(c, redis, s, e);
    System(store, NextCalls(s, e, verdict))
  }

  /** The system after the first n events. */
  function After(c: Settings, redis: bool, events: seq<Timed>, n: nat): System
    requires n <= |events|
  {
    if n == 0 then START else Step(c, redis, After(c, redis, events, n - 1), events[n - 1])
  }

  /** The clock does not run backwards, and a row is not older than the check that allowed it. */
  predicate Chronological(events: seq<Timed>) {
    && (forall i, j :: 0 <= i < j < |events| ==> events[i].at <= events[j].at)
    && (forall i :: 0 <= i < |events| ==> RowNotOlder(events[i]))
  }

  predicate RowNotOlder(e: Timed) {
    e.event.PlaceCall? && e.event.row.Some? ==> e.at <= e.event.row.value.at
  }

  /** The clock does not run backwards. */
  ghost predicate InOrder(events: seq<Timed>) {
    forall i, j :: 0 <= i < j < |events| ==> events[i].at <= events[j].at
  }

  /** The verdict on event i of a run. */
  function VerdictAt(c: Settings, redis: bool, events: seq<Timed>, i: nat): Verdict
    requires i < |events|
  {
    Check(c, redis, After(c, redis, events, i), events[i]).1
  }

  /** The store after the first n events. */
  function StoreAfter(c: Settings, events: seq<Timed>, n: nat): Store
    requires n <= |events|
  {
    After(c, true, events, n).store
  }

  // ---- Keys ----

  predicate IsCounterKey(key: Key) {
    key.ApiKeyKey? || key.IpKey? || key.SteerKey?
  }

  /** The kind of a key shows in its spelling, and the rest of the spelling is its text. */
  lemma SpelledApart(key: Key)
    ensures |Text(key)| > 8 && (Text(key)[3] == 's' <==> key.SteerKey?)
    ensures Text(key)[3] == 'p' <==> key.PhoneKey?
    ensures Text(key)[3] == 't' <==> key.TransferKey?
    ensures key.ApiKeyKey? ==> |Text(key)| > 12 && Text(key)[9] == 'k' && Text(key)[13..] == key.apiKey
    ensures key.IpKey? ==> |Text(key)| > 11 && Text(key)[9] == 'i' && Text(key)[12..] == key.ip
    ensures key.PhoneKey? ==> |Text(key)| > 11 && Text(key)[12..] == key.phone
    ensures key.TransferKey? ==> |Text(key)| > 14 && Text(key)[15..] == key.phone
    ensures key.SteerKey? ==> Text(key)[9..] == key.callId
  {
  }

  /** No two keys are spelled alike, whatever the texts in them. */
  lemma KeysSpelledApart(a: Key, b: Key)
    ensures Text(a) == Text(b) ==> a == b
  {
    SpelledApart(a);
    SpelledApart(b);
  }

  /** Of the cooldown keys, a call check can only change its own phone's, and only by accepting. */
  lemma CallCreateTouches(c: Settings, redis: bool, s: Store, calls: seq<Call>, apiKey: string, phone: string,
                          ip: string, now: nat, r: Reach, key: Key)
    requires !IsCounterKey(key)
    ensures var (after, verdict) := CallCreate(c, redis, s, calls, apiKey, phone, ip, now, r);
            Lookup(after, key) ==
            if c.enabled && verdict.Accepted? && redis && r.store && c.phoneCooldown > 0 && key == PhoneKey(phone)
            then Some(Entry(1, Some(now + 1000 * c.phoneCooldown))) else Lookup(s, key)
  {
  }

  lemma TransferCheckTouches(c: Settings, redis: bool, s: Store, phone: string, now: nat, r: Reach, key: Key)
    ensures var (after, verdict) := TransferCheck(c, redis, s, phone, now, r);
            Lookup(after, key) ==
            if c.enabled && verdict.Accepted? && redis && r.store && c.transferCooldown > 0 && key == TransferKey(phone)
            then Some(Entry(1, Some(now + 1000 * c.transferCooldown))) else Lookup(s, key)
  {
  }

  /**
   A refused call neither starts nor extends any phone's cooldown; no call touches a transfer cooldown, or
   conversely.
   */
  lemma RefusalLeavesCooldowns(c: Settings, redis: bool, s: System, e: Timed, phone: string)
    ensures var (after, verdict) := Check(c, redis, s, e);
            && (e.event.PlaceCall? && !verdict.Accepted? ==>
                  Lookup(after, PhoneKey(phone)) == Lookup(s.store, PhoneKey(phone)))
            && (!e.event.PlaceCall? ==> Lookup(after, PhoneKey(phone)) == Lookup(s.store, PhoneKey(phone)))
            && (!e.event.RequestTransfer? ==> Lookup(after, TransferKey(phone)) == Lookup(s.store, TransferKey(phone)))
            && (e.event.RequestTransfer? && !verdict.Accepted? ==>
                  Lookup(after, TransferKey(phone)) == Lookup(s.store, TransferKey(phone)))
  {
    match e.event
    case PlaceCall(apiKey, number, _, ip, reach, _) =>
      CallCreateTouches(c, redis, s.store, s.calls, apiKey, number, ip, e.at, reach, PhoneKey(phone));
      CallCreateTouches(c, redis, s.store, s.calls, apiKey, number, ip, e.at, reach, TransferKey(phone));
    case RequestTransfer(number, reach) =>
      TransferCheckTouches(c, redis, s.store, number, e.at, reach, PhoneKey(phone));
      TransferCheckTouches(c, redis, s.store, number, e.at, reach, TransferKey(phone));
    case Steer(_, _) =>
    case Unchecked(_) =>
    case StatusChange(_, _) =>
  }

  // ---- What one request does to a cooldown and to a counter ----

  datatype Cooldown = OfCalls(phone: string) | OfTransfers(phone: string)

  function CooldownKey(d: Cooldown): Key {
    if d.OfCalls? then PhoneKey(d.phone) else TransferKey(d.phone)
  }

  function CooldownSeconds(c: Settings, d: Cooldown): int {
    if d.OfCalls? then c.phoneCooldown else c.transferCooldown
  }

  /** A request the cooldown is about. */
  predicate Concerns(e: Timed, d: Cooldown) {
    if d.OfCalls? then e.event.PlaceCall? && e.event.phone == d.phone
    else e.event.RequestTransfer? && e.event.transferPhone == d.phone
  }

  /** Redis is up when an accepted request sets the cooldown, respectively when a request reads it. */
  predicate Sets(e: Timed, d: Cooldown) {
    Concerns(e, d) && e.event.reach.store
  }

  predicate Reads(e: Timed, d: Cooldown) {
    Concerns(e, d) && e.event.reach.lookup
  }

  function Holding(s: Store, d: Cooldown): Option<Entry> {
    Lookup(s, CooldownKey(d))
  }

  lemma SetStep(c: Settings, s: System, e: Timed, d: Cooldown)
    requires c.enabled && CooldownSeconds(c, d) > 0
    ensures Holding(Step(c, true, s, e).store, d)
            == if Sets(e, d) && Check(c, true, s, e).1.Accepted?
               then Some(Entry(1, Some(e.at + 1000 * CooldownSeconds(c, d)))) else Holding(s.store, d)
  {
    RefusalLeavesCooldowns(c, true, s, e, d.phone);
    if e.event.PlaceCall? {
      var p := e.event;
      CallCreateTouches(c, true, s.store, s.calls, p.apiKey, p.phone, p.ip, e.at, p.reach, CooldownKey(d));
    } else if e.event.RequestTransfer? {
      TransferCheckTouches(c, true, s.store, e.event.transferPhone, e.at, e.event.reach, CooldownKey(d));
    }
  }

  lemma NeverSet(c: Settings, s: System, e: Timed, d: Cooldown)
    requires c.enabled && CooldownSeconds(c, d) <= 0
    ensures Holding(Step(c, true, s, e).store, d) == Holding(s.store, d)
  {
    RefusalLeavesCooldowns(c, true, s, e, d.phone);
    if e.event.PlaceCall? {
      var p := e.event;
      CallCreateTouches(c, true, s.store, s.calls, p.apiKey, p.phone, p.ip, e.at, p.reach, CooldownKey(d));
    } else if e.event.RequestTransfer? {
      TransferCheckTouches(c, true, s.store, e.event.transferPhone, e.at, e.event.reach, CooldownKey(d));
    }
  }

  datatype Counter = ByApiKey(apiKey: string) | ByIp(ip: string) | BySteering(callId: string)

  function CounterKey(k: Counter): Key {
    match k
    case ByApiKey(apiKey) => ApiKeyKey(apiKey)
    case ByIp(ip) => IpKey(ip)
    case BySteering(callId) => SteerKey(callId)
  }

  function Limit(c: Settings, k: Counter): int {
    match k
    case ByApiKey(_) => c.callsPerMinute
    case ByIp(_) => c.perIpPerMinute
    case BySteering(_) => c.steerPerMinute
  }

  /** A request that the counter is meant to count, with Redis up. */
  predicate Subject(e: Timed, k: Counter) {
    match k
    case ByApiKey(apiKey) => apiKey != "" && e.event.PlaceCall? && e.event.apiKey == apiKey && e.event.reach.keyHit
    case ByIp(ip) => e.event.PlaceCall? && e.event.ip == ip && e.event.reach.ipHit
    case BySteering(callId) => e.event.Steer? && e.event.callId == callId && e.event.reach.keyHit
  }

  /** A call rejected for its API key never reaches the counter of its address. */
  predicate Reaches(c: Settings, s: System, e: Timed, k: Counter) {
    Subject(e, k) &&
    (k.ByIp? && e.event.apiKey != "" ==>
       Counted(s.store, ApiKeyKey(e.event.apiKey), c.callsPerMinute, e.at, e.event.reach.keyHit).1)
  }

  lemma CallCreateMirrors(c: Settings, s: System, e: Timed, k: Counter)
    requires c.enabled && e.event.PlaceCall?
    ensures var key := CounterKey(k); var (after, verdict) := Check(c, true, s, e);
            && Lookup(after, key)
               == (if Reaches(c, s, e, k)
                   then Some(EntryAfterHit(Lookup(s.store, key), 60, e.at)) else Lookup(s.store, key))
            && (Subject(e, k) && verdict.Accepted? ==>
                  Reaches(c, s, e, k) && CountAfterHit(s.store, key, e.at) <= Limit(c, k))
  {
    var p, key := e.event, CounterKey(k);
    var (s1, keyOk) := if p.apiKey == "" then (s.store, true)
                       else Counted(s.store, ApiKeyKey(p.apiKey), c.callsPerMinute, e.at, p.reach.keyHit);
    var s2 := Counted(s1, IpKey(p.ip), c.perIpPerMinute, e.at, p.reach.ipHit).0;
    CooldownAside(c, s2, p.phone, e.at, k);
    HitLookup(s.store, key, 60, e.at);
    if k.ByIp? && p.ip == k.ip {
      HitLookup(s1, key, 60, e.at);
    }
  }

  lemma CooldownAside(c: Settings, s: Store, phone: string, now: nat, k: Counter)
    ensures Lookup(SetEx(s, PhoneKey(phone), c.phoneCooldown, now), CounterKey(k)) == Lookup(s, CounterKey(k))
    ensures Lookup(SetEx(s, TransferKey(phone), c.transferCooldown, now), CounterKey(k)) == Lookup(s, CounterKey(k))
  {
  }

  /** Under a counter's key the store is what the arrivals at it make of it. */
  lemma StepMirrors(c: Settings, s: System, e: Timed, k: Counter)
    requires c.enabled
    ensures var key := CounterKey(k); var (after, verdict) := Check(c, true, s, e);
            && Lookup(after, key)
               == (if Reaches(c, s, e, k)
                   then Some(EntryAfterHit(Lookup(s.store, key), 60, e.at)) else Lookup(s.store, key))
            && (Subject(e, k) && verdict.Accepted? ==>
                  Reaches(c, s, e, k) && CountAfterHit(s.store, key, e.at) <= Limit(c, k))
  {
    match e.event
    case PlaceCall(_, _, _, _, _, _) => CallCreateMirrors(c, s, e, k);
    case RequestTransfer(phone, _) => CooldownAside(c, s.store, phone, e.at, k);
    case Steer(_, _) => HitLookup(s.store, CounterKey(k), 60, e.at);
    case Unchecked(_) =>
    case StatusChange(_, _) =>
  }
}
