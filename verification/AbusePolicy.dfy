/** AbusePolicy: the checks in front of calls, steering and transfers. */
module AbusePolicy {
  import opened Seqs
  import opened FixedWindow
  import opened TransferModel

  datatype Settings = Settings(
    enabled: bool,
    callsPerMinute: int,
    perIpPerMinute: int,
    steerPerMinute: int,
    phoneCooldown: int,
    transferCooldown: int,
    phonePerDay: int,
    maxConcurrent: int)

  datatype Call = Call(phone: string, status: CallStatus, createdAt: nat)

  /** Which Redis commands of one check get through. */
  datatype Reach = Reach(keyHit: bool, ipHit: bool, lookup: bool, store: bool)

  datatype Verdict =
    | Accepted | ApiKeyLimit | IpLimit | PhoneCooldown | DailyCap | ConcurrencyCap | SteerLimit | TransferCooldown

  const DAY := 86_400_000

  /** How a key is spelled in Redis. */
  function Text(key: Key): string {
    match key
    case ApiKeyKey(apiKey) => "rl:calls:key:" + apiKey
    case IpKey(ip) => "rl:calls:ip:" + ip
    case PhoneKey(phone) => "rl:phone_cd:" + phone
    case TransferKey(phone) => "rl:transfer_cd:" + phone
    case SteerKey(callId) => "rl:steer:" + callId
  }

  function TodayStart(now: nat): nat { now - now % DAY }

  function CountSince(calls: seq<Call>, phone: string, since: nat): nat {
    if calls == [] then 0
    else CountSince(calls[..|calls| - 1], phone, since)
         + if calls[|calls| - 1].phone == phone && calls[|calls| - 1].createdAt >= since then 1 else 0
  }

  function CountActive(calls: seq<Call>): nat {
    if calls == [] then 0
    else CountActive(calls[..|calls| - 1]) + if Terminal(calls[|calls| - 1].status) then 0 else 1
  }

  // ---- What each check decides and leaves behind ----

  /** One counted check: what it leaves in the store, and whether it admits. */
  function Counted(s: Store, key: Key, limit: int, now: int, reachable: bool): (Store, bool) {
    if reachable then (Hit(s, key, 60, now), CountAfterHit(s, key, now) <= limit) else (s, true)
  }

  /** The store and the verdict of check_call_create; `redis` says whether there is a connection at all. */
  function CallCreate(c: Settings, redis: bool, s: Store, calls: seq<Call>, apiKey: string, phone: string, ip: string,
                      now: nat, r: Reach): (Store, Verdict)
  {
    if !c.enabled then (s, Accepted)
    else
      var (s, keyOk) := if apiKey == "" then (s, true)
                        else Counted(s, ApiKeyKey(apiKey), c.callsPerMinute, now, redis && r.keyHit);
      if !keyOk then (s, ApiKeyLimit)
      else
        var (s, ipOk) := Counted(s, IpKey(ip), c.perIpPerMinute, now, redis && r.ipHit);
        if !ipOk then (s, IpLimit)
        else if redis && r.lookup && Live(s, PhoneKey(phone), now) then (s, PhoneCooldown)
        else if CountSince(calls, phone, TodayStart(now)) >= c.phonePerDay then (s, DailyCap)
        else if CountActive(calls) >= c.maxConcurrent then (s, ConcurrencyCap)
        else if redis && r.store then (SetEx(s, PhoneKey(phone), c.phoneCooldown, now), Accepted)
        else (s, Accepted)
  }

  function TransferCheck(c: Settings, redis: bool, s: Store, phone: string, now: nat, r: Reach): (Store, Verdict) {
    if !c.enabled then (s, Accepted)
    else if redis && r.lookup && Live(s, TransferKey(phone), now) then (s, TransferCooldown)
    else if redis && r.store then (SetEx(s, TransferKey(phone), c.transferCooldown, now), Accepted)
    else (s, Accepted)
  }

  function SteerCheck(c: Settings, redis: bool, s: Store, callId: string, now: nat, r: Reach): (Store, Verdict) {
    if !c.enabled then (s, Accepted)
    else
      var (s, ok) := Counted(s, SteerKey(callId), c.steerPerMinute, now, redis && r.keyHit);
      (s, if ok then Accepted else SteerLimit)
  }

  class CallTable {
    var calls: seq<Call>

    constructor ()
      ensures calls == []
    {
      calls := [];
    }

    method CountPhoneSince(phone: string, since: nat) returns (n: nat)
      ensures n == CountSince(calls, phone, since)
    {
      n := 0;
      for i := 0 to |calls|
        invariant n == CountSince(calls[..i], phone, since)
      {
        assert calls[..i + 1][..i] == calls[..i];
        if calls[i].phone == phone && calls[i].createdAt >= since {
          n := n + 1;
        }
      }
      assert calls[..|calls|] == calls;
    }

    method CountNonTerminal() returns (n: nat)
      ensures n == CountActive(calls)
    {
      n := 0;
      for i := 0 to |calls|
        invariant n == CountActive(calls[..i])
      {
        assert calls[..i + 1][..i] == calls[..i];
        if !Terminal(calls[i].status) {
          n := n + 1;
        }
      }
      assert calls[..|calls|] == calls;
    }
  }

  class AbusePolicy {
    const settings: Settings
    const redis: Redis?
    const limiter: RateLimiter
    const table: CallTable

    constructor (settings: Settings, redis: Redis?, table: CallTable)
      ensures this.settings == settings && this.redis == redis && this.table == table
      ensures fresh(limiter) && limiter.redis == redis
    {
      this.settings, this.redis, this.table := settings, redis, table;
      limiter := new RateLimiter(redis);
    }

    ghost function CurrentStore(): Store
      reads redis
    {
      if redis == null then map[] else redis.store
    }

    method CheckCallCreate(apiKey: string, phone: string, ip: string, now: nat, r: Reach) returns (verdict: Verdict)
      requires limiter.redis == redis
      modifies redis
      ensures (CurrentStore(), verdict)
              == CallCreate(settings, redis != null, old(CurrentStore()), old(table.calls), apiKey, phone, ip, now, r)
    {
      if !settings.enabled {
        return Accepted;
      }
      if apiKey != "" {
        var keyOk := limiter.CheckFixedWindow(ApiKeyKey(apiKey), settings.callsPerMinute, 60, now, r.keyHit);
        if !keyOk {
          return ApiKeyLimit;
        }
      }
      var ipOk := limiter.CheckFixedWindow(IpKey(ip), settings.perIpPerMinute, 60, now, r.ipHit);
      if !ipOk {
        return IpLimit;
      }
      if redis != null && r.lookup {
        var cooling := redis.Exists(PhoneKey(phone), now);
        if cooling {
          return PhoneCooldown;
        }
      }
      var today := table.CountPhoneSince(phone, TodayStart(now));
      if today >= settings.phonePerDay {
        return DailyCap;
      }
      var active := table.CountNonTerminal();
      if active >= settings.maxConcurrent {
        return ConcurrencyCap;
      }
      if redis != null && r.store {
        redis.StoreFor(PhoneKey(phone), settings.phoneCooldown, now);
      }
      return Accepted;
    }

    method CheckTransfer(phone: string, now: nat, r: Reach) returns (verdict: Verdict)
      modifies redis
      ensures (CurrentStore(), verdict) == TransferCheck(settings, redis != null, old(CurrentStore()), phone, now, r)
    {
      if !settings.enabled {
        return Accepted;
      }
      if redis != null && r.lookup {
        var cooling := redis.Exists(TransferKey(phone), now);
        if cooling {
          return TransferCooldown;
        }
      }
      if redis != null && r.store {
        redis.StoreFor(TransferKey(phone), settings.transferCooldown, now);
      }
      return Accepted;
    }

    method CheckSteer(callId: string, now: nat, r: Reach) returns (verdict: Verdict)
      requires limiter.redis == redis
      modifies redis
      ensures (CurrentStore(), verdict) == SteerCheck(settings, redis != null, old(CurrentStore()), callId, now, r)
    {
      if !settings.enabled {
        return Accepted;
      }
      var ok := limiter.CheckFixedWindow(SteerKey(callId), settings.steerPerMinute, 60, now, r.keyHit);
      verdict := if ok then Accepted else SteerLimit;
    }
  }
}
