/** What Redis holds is what the requests before left, and so every verdict is decided by them. */
module AbuseVerdicts {
  import opened Seqs
  import opened FixedWindow
  import opened TransferModel
  import opened AbusePolicy
  import opened AbuseRuns

  // ---- What is observed of a run, event by event ----

  /** What a key holds before each event, and at the end. */
  function Entries(c: Settings, events: seq<Timed>, key: Key): (held: seq<Option<Entry>>)
    ensures |held| == |events| + 1
  {
    seq(|events| + 1, i requires 0 <= i <= |events| => Lookup(StoreAfter(c, events, i), key))
  }

  function Moments(events: seq<Timed>): (at: seq<nat>)
    ensures |at| == |events| && forall i :: 0 <= i < |at| ==> at[i] == events[i].at
  {
    seq(|events|, i requires 0 <= i < |events| => events[i].at)
  }

  /** Whether event i sets the cooldown. */
  predicate SetAt(c: Settings, events: seq<Timed>, d: Cooldown, i: nat)
    requires i < |events|
  {
    Sets(events[i], d) && VerdictAt(c, true, events, i).Accepted?
  }

  /** Which events set a cooldown, and which reach a counter. */
  function Started(c: Settings, events: seq<Timed>, d: Cooldown): (started: seq<bool>)
    ensures |started| == |events|
  {
    seq(|events|, i requires 0 <= i < |events| => SetAt(c, events, d, i))
  }

  function Reached(c: Settings, events: seq<Timed>, k: Counter): (reached: seq<bool>)
    ensures |reached| == |events|
  {
    seq(|events|, i requires 0 <= i < |events| => Reaches(c, After(c, true, events, i), events[i], k))
  }

  lemma EntriesFirst(c: Settings, events: seq<Timed>, key: Key)
    ensures Entries(c, events, key)[0] == None
  {
  }

  // ---- Cooldowns ----

  /** What a key holds before and after event i, if setting it makes it last for a while from then on. */
  predicate SequelAt(held: seq<Option<Entry>>, started: seq<bool>, at: seq<nat>, lasts: int, i: nat)
    requires |held| == |started| + 1 == |at| + 1 && i < |started|
  {
    held[i + 1] == if started[i] then Some(Entry(1, Some(at[i] + lasts))) else held[i]
  }

  ghost predicate Sequel(held: seq<Option<Entry>>, started: seq<bool>, at: seq<nat>, lasts: int) {
    && |held| == |started| + 1 == |at| + 1 && held[0] == None
    && forall i :: 0 <= i < |started| ==> SequelAt(held, started, at, lasts, i)
  }

  /** The last to set it decides, and as times do not decrease, so does any. */
  lemma {:induction false} LastDecides(
    held: seq<Option<Entry>>, started: seq<bool>, at: seq<nat>, lasts: int, now: int, n: nat)
    requires Sequel(held, started, at, lasts) && n <= |at|
    requires forall i, j :: 0 <= i < j < |at| ==> at[i] <= at[j]
    ensures held[n].Some? ==> held[n].value.expiresAt.Some?
    ensures held[n].Some? && now < held[n].value.expiresAt.value
            <==> exists i :: 0 <= i < n && started[i] && now < at[i] + lasts
    decreases n
  {
    if n > 0 {
      assert SequelAt(held, started, at, lasts, n - 1);
      if !started[n - 1] {
        LastDecides(held, started, at, lasts, now, n - 1);
      }
    }
  }

  lemma CooldownHere(c: Settings, events: seq<Timed>, d: Cooldown, i: nat)
    requires c.enabled && CooldownSeconds(c, d) > 0 && i < |events|
    ensures SequelAt(Entries(c, events, CooldownKey(d)), Started(c, events, d), Moments(events),
                     1000 * CooldownSeconds(c, d), i)
  {
    SetStep(c, After(c, true, events, i), events[i], d);
  }

  /** When Redis holds a cooldown key, it holds what the last accepted request that set it left. */
  lemma StoreCooldown(c: Settings, events: seq<Timed>, d: Cooldown)
    requires c.enabled && CooldownSeconds(c, d) > 0
    ensures Sequel(Entries(c, events, CooldownKey(d)), Started(c, events, d), Moments(events),
                   1000 * CooldownSeconds(c, d))
  {
    EntriesFirst(c, events, CooldownKey(d));
    forall i | 0 <= i < |events|
      ensures SequelAt(Entries(c, events, CooldownKey(d)), Started(c, events, d), Moments(events),
                       1000 * CooldownSeconds(c, d), i)
    {
      CooldownHere(c, events, d, i);
    }
  }

  lemma NeverHere(c: Settings, events: seq<Timed>, d: Cooldown, i: nat)
    requires c.enabled && CooldownSeconds(c, d) <= 0 && i < |events|
    ensures Entries(c, events, CooldownKey(d))[i + 1] == Entries(c, events, CooldownKey(d))[i]
  {
    NeverSet(c, After(c, true, events, i), events[i], d);
  }

  lemma {:induction false} Unchanging(held: seq<Option<Entry>>, n: nat)
    requires n < |held| && held[0] == None && forall i :: 0 <= i < |held| - 1 ==> held[i + 1] == held[i]
    ensures held[n] == None
  {
    if n > 0 {
      Unchanging(held, n - 1);
      assert held[n - 1 + 1] == held[n - 1];
    }
  }

  /** Without a cooldown there is no key. */
  lemma StoreNoCooldown(c: Settings, events: seq<Timed>, d: Cooldown, n: nat)
    requires c.enabled && CooldownSeconds(c, d) <= 0 && n <= |events|
    ensures Entries(c, events, CooldownKey(d))[n] == None
  {
    var held := Entries(c, events, CooldownKey(d));
    EntriesFirst(c, events, CooldownKey(d));
    forall i | 0 <= i < |held| - 1 ensures held[i + 1] == held[i] {
      NeverHere(c, events, d, i);
    }
    Unchanging(held, n);
  }

  /** One of the first n events was accepted, and set a cooldown that is not over. */
  ghost predicate CoolingDown(c: Settings, events: seq<Timed>, n: nat, d: Cooldown, now: int)
    requires n <= |events|
  {
    exists i :: 0 <= i < n && SetAt(c, events, d, i) && now < events[i].at + 1000 * CooldownSeconds(c, d)
  }

  lemma CoolingByStarted(c: Settings, events: seq<Timed>, n: nat, d: Cooldown, now: int)
    requires n <= |events|
    ensures CoolingDown(c, events, n, d, now)
            <==> exists i :: 0 <= i < n && Started(c, events, d)[i]
                             && now < Moments(events)[i] + 1000 * CooldownSeconds(c, d)
  {
    var started := Started(c, events, d);
    assert forall i :: 0 <= i < n ==> started[i] == SetAt(c, events, d, i);
  }

  /** A held entry that is not over. */
  predicate Holds(e: Option<Entry>, now: int) {
    e.Some? && (e.value.expiresAt.Some? ==> now < e.value.expiresAt.value)
  }

  lemma LiveHolds(c: Settings, events: seq<Timed>, n: nat, key: Key, now: int)
    requires n <= |events|
    ensures Live(StoreAfter(c, events, n), key, now) <==> Holds(Entries(c, events, key)[n], now)
  {
  }

  /** The cooldown key is there exactly while a cooldown lasts. */
  lemma LiveIsCooling(c: Settings, events: seq<Timed>, n: nat, d: Cooldown)
    requires c.enabled && InOrder(events) && n < |events|
    ensures Live(StoreAfter(c, events, n), CooldownKey(d), events[n].at)
            <==> CoolingDown(c, events, n, d, events[n].at)
  {
    LiveHolds(c, events, n, CooldownKey(d), events[n].at);
    CoolingByStarted(c, events, n, d, events[n].at);
    if CooldownSeconds(c, d) > 0 {
      StoreCooldown(c, events, d);
      LastDecides(Entries(c, events, CooldownKey(d)), Started(c, events, d), Moments(events),
                  1000 * CooldownSeconds(c, d), events[n].at, n);
    } else {
      StoreNoCooldown(c, events, d, n);
    }
  }

  // ---- Counters ----

  /** The first n times that are marked, as arrivals of one limit. */
  function Collect(at: seq<nat>, reached: seq<bool>, limit: int, n: nat): seq<Arrival>
    requires n <= |at| == |reached|
  {
    if n == 0 then []
    else Collect(at, reached, limit, n - 1) + if reached[n - 1] then [Arrival(at[n - 1], limit, 60)] else []
  }

  /** What a key holds before and after event i, if the marked ones hit it. */
  predicate HitsAt(held: seq<Option<Entry>>, reached: seq<bool>, at: seq<nat>, i: nat)
    requires |held| == |reached| + 1 == |at| + 1 && i < |reached|
  {
    held[i + 1] == if reached[i] then Some(EntryAfterHit(held[i], 60, at[i])) else held[i]
  }

  ghost predicate HitsOnly(held: seq<Option<Entry>>, reached: seq<bool>, at: seq<nat>) {
    && |held| == |reached| + 1 == |at| + 1 && held[0] == None
    && forall i :: 0 <= i < |reached| ==> HitsAt(held, reached, at, i)
  }

  lemma {:induction false} CollectMirrors(
    held: seq<Option<Entry>>, reached: seq<bool>, at: seq<nat>, limit: int, key: Key, n: nat)
    requires HitsOnly(held, reached, at) && n <= |at|
    ensures held[n] == Lookup(AfterHits(map[], key, Collect(at, reached, limit, n)), key)
    decreases n
  {
    if n > 0 {
      var front := Collect(at, reached, limit, n - 1);
      CollectMirrors(held, reached, at, limit, key, n - 1);
      assert HitsAt(held, reached, at, n - 1);
      if reached[n - 1] {
        assert (front + [Arrival(at[n - 1], limit, 60)])[..|front|] == front;
        HitLookup(AfterHits(map[], key, front), key, 60, at[n - 1]);
      } else {
        assert front + [] == front;
      }
    }
  }

  lemma {:induction false} CollectUniform(at: seq<nat>, reached: seq<bool>, limit: int, n: nat)
    requires n <= |at| == |reached| && forall i, j :: 0 <= i < j < |at| ==> at[i] <= at[j]
    ensures var arrivals := Collect(at, reached, limit, n);
            Uniform(arrivals, limit, 60) && (arrivals != [] ==> n > 0 && arrivals[|arrivals| - 1].at <= at[n - 1])
    decreases n
  {
    if n > 0 {
      var front := Collect(at, reached, limit, n - 1);
      CollectUniform(at, reached, limit, n - 1);
      UniformSnoc(front, limit, Arrival(at[n - 1], limit, 60));
      assert front + [] == front;
    }
  }

  lemma UniformSnoc(front: seq<Arrival>, limit: int, a: Arrival)
    requires Uniform(front, limit, 60) && a.limit == limit && a.window == 60
    requires front != [] ==> front[|front| - 1].at <= a.at
    ensures Uniform(front + [a], limit, 60)
  {
  }

  lemma HitsHere(c: Settings, events: seq<Timed>, k: Counter, i: nat)
    requires c.enabled && i < |events|
    ensures HitsAt(Entries(c, events, CounterKey(k)), Reached(c, events, k), Moments(events), i)
  {
    StepMirrors(c, After(c, true, events, i), events[i], k);
  }

  lemma StoreHits(c: Settings, events: seq<Timed>, k: Counter)
    requires c.enabled
    ensures HitsOnly(Entries(c, events, CounterKey(k)), Reached(c, events, k), Moments(events))
  {
    EntriesFirst(c, events, CounterKey(k));
    forall i | 0 <= i < |events|
      ensures HitsAt(Entries(c, events, CounterKey(k)), Reached(c, events, k), Moments(events), i)
    {
      HitsHere(c, events, k, i);
    }
  }

  /** The arrivals at one counter among the first n events. */
  function Arrivals(c: Settings, events: seq<Timed>, n: nat, k: Counter): seq<Arrival>
    requires n <= |events|
  {
    Collect(Moments(events), Reached(c, events, k), Limit(c, k), n)
  }

  /** In every run each counter holds what its own arrivals make of it. */
  lemma StoreMirrors(c: Settings, events: seq<Timed>, n: nat, k: Counter)
    requires c.enabled && n <= |events|
    ensures var key := CounterKey(k);
            Lookup(StoreAfter(c, events, n), key) == Lookup(AfterHits(map[], key, Arrivals(c, events, n, k)), key)
  {
    StoreHits(c, events, k);
    CollectMirrors(Entries(c, events, CounterKey(k)), Reached(c, events, k), Moments(events), Limit(c, k),
                   CounterKey(k), n);
  }

  lemma ArrivalsUniform(c: Settings, events: seq<Timed>, n: nat, k: Counter)
    requires n <= |events| && InOrder(events)
    ensures Uniform(Arrivals(c, events, n, k), Limit(c, k), 60)
  {
    CollectUniform(Moments(events), Reached(c, events, k), Limit(c, k), n);
  }

  /** Limit arrivals or more, rejected ones included, precede event n in the window of the counter. */
  ghost predicate WindowFull(c: Settings, events: seq<Timed>, n: nat, k: Counter)
    requires n < |events|
  {
    var arrivals := Arrivals(c, events, n, k);
    !Admitted(arrivals + [Arrival(events[n].at, Limit(c, k), 60)], |arrivals|)
  }

  /** A further arrival is admitted by the count exactly if the arrivals before say so. */
  lemma HistoryAdmits(s: Store, key: Key, front: seq<Arrival>, a: Arrival)
    requires Lookup(s, key) == Lookup(AfterHits(map[], key, front), key)
    ensures CountAfterHit(s, key, a.at) <= a.limit <==> Admitted(front + [a], |front|)
  {
    var arrivals := front + [a];
    assert arrivals[..|front|] == front;
    HitLookup(s, key, a.window, a.at);
    HitLookup(AfterHits(map[], key, front), key, a.window, a.at);
    AdmissionIsHistory(map[], key, arrivals, |front|);
  }

  lemma CounterDecides(c: Settings, events: seq<Timed>, n: nat, k: Counter)
    requires c.enabled && n < |events|
    ensures CountAfterHit(StoreAfter(c, events, n), CounterKey(k), events[n].at) <= Limit(c, k)
            <==> !WindowFull(c, events, n, k)
  {
    StoreMirrors(c, events, n, k);
    HistoryAdmits(StoreAfter(c, events, n), CounterKey(k), Arrivals(c, events, n, k),
                  Arrival(events[n].at, Limit(c, k), 60));
  }

  // ---- Caps ----

  /** The rows of a phone from a UTC day on, and the rows that have not ended. */
  function RowsFrom(calls: seq<Call>, phone: string, day: nat): set<nat> {
    set i: nat | 0 <= i < |calls| && calls[i].phone == phone && calls[i].createdAt / DAY >= day
  }

  predicate HasEnded(call: Call) {
    call.status.Completed? || call.status.Failed? || call.status.Stopped?
  }

  function RowsActive(calls: seq<Call>): set<nat> {
    set i: nat | 0 <= i < |calls| && !HasEnded(calls[i])
  }

  lemma SameDay(at: nat, now: nat)
    ensures at >= TodayStart(now) <==> at / DAY >= now / DAY
  {
    assert TodayStart(now) == DAY * (now / DAY);
  }

  lemma RowsFromNext(calls: seq<Call>, phone: string, day: nat)
    requires calls != []
    ensures var n := |calls| - 1;
            |RowsFrom(calls, phone, day)|
            == |RowsFrom(calls[..n], phone, day)|
               + if calls[n].phone == phone && calls[n].createdAt / DAY >= day then 1 else 0
  {
    var n := |calls| - 1;
    var front, all := RowsFrom(calls[..n], phone, day), RowsFrom(calls, phone, day);
    if n in all {
      assert all == front + {n};
    } else {
      assert all == front;
    }
  }

  lemma {:induction false} CountSinceMeaning(calls: seq<Call>, phone: string, now: nat)
    ensures CountSince(calls, phone, TodayStart(now)) == |RowsFrom(calls, phone, now / DAY)|
  {
    if calls != [] {
      CountSinceMeaning(calls[..|calls| - 1], phone, now);
      SameDay(calls[|calls| - 1].createdAt, now);
      RowsFromNext(calls, phone, now / DAY);
    }
  }

  lemma RowsActiveNext(calls: seq<Call>)
    requires calls != []
    ensures var n := |calls| - 1;
            |RowsActive(calls)| == |RowsActive(calls[..n])| + if Terminal(calls[n].status) then 0 else 1
  {
    var n := |calls| - 1;
    var front, all := RowsActive(calls[..n]), RowsActive(calls);
    if n in all {
      assert all == front + {n};
    } else {
      assert all == front;
    }
  }

  lemma {:induction false} CountActiveMeaning(calls: seq<Call>)
    ensures CountActive(calls) == |RowsActive(calls)|
  {
    if calls != [] {
      CountActiveMeaning(calls[..|calls| - 1]);
      RowsActiveNext(calls);
    }
  }

  // ---- Verdicts ----

  /** The first of the five conditions that holds refuses a call; the first three need Redis. */
  ghost function CallVerdict(c: Settings, redis: bool, events: seq<Timed>, n: nat): Verdict
    requires n < |events| && events[n].event.PlaceCall?
  {
    var p, now, calls := events[n].event, events[n].at, After(c, redis, events, n).calls;
    if redis && p.apiKey != "" && p.reach.keyHit && WindowFull(c, events, n, ByApiKey(p.apiKey)) then ApiKeyLimit
    else if redis && p.reach.ipHit && WindowFull(c, events, n, ByIp(p.ip)) then IpLimit
    else if redis && p.reach.lookup && CoolingDown(c, events, n, OfCalls(p.phone), now) then PhoneCooldown
    else if |RowsFrom(calls, p.phone, now / DAY)| >= c.phonePerDay then DailyCap
    else if |RowsActive(calls)| >= c.maxConcurrent then ConcurrencyCap
    else Accepted
  }

  /** What event n of a run should get. */
  ghost function Deserved(c: Settings, redis: bool, events: seq<Timed>, n: nat): Verdict
    requires n < |events|
  {
    var now := events[n].at;
    match events[n].event
    case PlaceCall(_, _, _, _, _, _) => CallVerdict(c, redis, events, n)
    case RequestTransfer(phone, reach) =>
      if redis && reach.lookup && CoolingDown(c, events, n, OfTransfers(phone), now) then TransferCooldown else Accepted
    case Steer(callId, reach) =>
      if redis && reach.keyHit && WindowFull(c, events, n, BySteering(callId)) then SteerLimit else Accepted
    case _ => Accepted
  }

  /** The verdict on a call by the store and the rows it finds. */
  ghost predicate CallDecided(c: Settings, redis: bool, s: System, p: Event, now: nat, verdict: Verdict)
    requires p.PlaceCall?
  {
    verdict ==
    if redis && p.apiKey != "" && p.reach.keyHit
       && CountAfterHit(s.store, CounterKey(ByApiKey(p.apiKey)), now) > c.callsPerMinute then ApiKeyLimit
    else if redis && p.reach.ipHit
            && CountAfterHit(s.store, CounterKey(ByIp(p.ip)), now) > c.perIpPerMinute then IpLimit
    else if redis && p.reach.lookup && Live(s.store, CooldownKey(OfCalls(p.phone)), now) then PhoneCooldown
    else if |RowsFrom(s.calls, p.phone, now / DAY)| >= c.phonePerDay then DailyCap
    else if |RowsActive(s.calls)| >= c.maxConcurrent then ConcurrencyCap
    else Accepted
  }

  lemma CallDecides(c: Settings, redis: bool, s: System, e: Timed)
    requires c.enabled && e.event.PlaceCall?
    ensures CallDecided(c, redis, s, e.event, e.at, Check(c, redis, s, e).1)
  {
    CountSinceMeaning(s.calls, e.event.phone, e.at);
    CountActiveMeaning(s.calls);
    CountersAside(c, s.store, e.event, e.at);
  }

  /** The counters of one call do not disturb each other, nor its cooldown. */
  lemma CountersAside(c: Settings, s: Store, p: Event, now: nat)
    requires p.PlaceCall?
    ensures var s1 := if p.apiKey == "" then s
                      else Counted(s, ApiKeyKey(p.apiKey), c.callsPerMinute, now, p.reach.keyHit).0;
            var s2 := Counted(s1, IpKey(p.ip), c.perIpPerMinute, now, p.reach.ipHit).0;
            && CountAfterHit(s1, IpKey(p.ip), now) == CountAfterHit(s, IpKey(p.ip), now)
            && Live(s2, PhoneKey(p.phone), now) == Live(s, PhoneKey(p.phone), now)
  {
  }

  lemma CallExactly(c: Settings, redis: bool, events: seq<Timed>, n: nat)
    requires c.enabled && InOrder(events) && n < |events| && events[n].event.PlaceCall?
    ensures VerdictAt(c, redis, events, n) == CallVerdict(c, redis, events, n)
  {
    var p, now := events[n].event, events[n].at;
    CallDecides(c, redis, After(c, redis, events, n), events[n]);
    if redis {
      CounterDecides(c, events, n, ByApiKey(p.apiKey));
      CounterDecides(c, events, n, ByIp(p.ip));
      LiveIsCooling(c, events, n, OfCalls(p.phone));
    }
  }

  lemma TransferExactly(c: Settings, redis: bool, events: seq<Timed>, n: nat)
    requires c.enabled && InOrder(events) && n < |events| && events[n].event.RequestTransfer?
    ensures VerdictAt(c, redis, events, n) == Deserved(c, redis, events, n)
  {
    if redis {
      LiveIsCooling(c, events, n, OfTransfers(events[n].event.transferPhone));
    }
  }

  lemma SteerExactly(c: Settings, redis: bool, events: seq<Timed>, n: nat)
    requires c.enabled && n < |events| && events[n].event.Steer?
    ensures VerdictAt(c, redis, events, n) == Deserved(c, redis, events, n)
  {
    if redis {
      CounterDecides(c, events, n, BySteering(events[n].event.callId));
    }
  }

  /** Switched off, the checks accept and leave Redis alone. */
  lemma SwitchedOff(c: Settings, redis: bool, s: System, e: Timed)
    requires !c.enabled
    ensures Check(c, redis, s, e) == (s.store, Accepted)
  {
  }

  /**
   Every verdict is exact: a request is refused by the first condition that holds, and accepted if and only if none
   does. Redis decides by the requests before, the caps by the rows there are.
   */
  lemma VerdictExactly(c: Settings, redis: bool, events: seq<Timed>, n: nat)
    requires InOrder(events) && n < |events|
    ensures VerdictAt(c, redis, events, n) == if c.enabled then Deserved(c, redis, events, n) else Accepted
  {
    if !c.enabled {
      SwitchedOff(c, redis, After(c, redis, events, n), events[n]);
    } else if events[n].event.PlaceCall? {
      CallExactly(c, redis, events, n);
    } else if events[n].event.RequestTransfer? {
      TransferExactly(c, redis, events, n);
    } else if events[n].event.Steer? {
      SteerExactly(c, redis, events, n);
    }
  }
}
