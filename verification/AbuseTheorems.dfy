/** What the abuse checks guarantee over whole runs of requests. */
module AbuseTheorems {
  import opened Seqs
  import opened FixedWindow
  import opened TransferModel
  import opened AbusePolicy
  import opened AbuseRuns
  import opened AbuseVerdicts

  // ---- Caps counted from the call table ----

  /** Rows of one phone created on one UTC day. */
  function CountOnDay(calls: seq<Call>, phone: string, day: nat): nat {
    if calls == [] then 0
    else CountOnDay(calls[..|calls| - 1], phone, day)
         + if calls[|calls| - 1].phone == phone && calls[|calls| - 1].createdAt / DAY == day then 1 else 0
  }

  /** Today's rows and later ones are all counted by the daily check. */
  lemma {:induction false} DayWithinSince(calls: seq<Call>, phone: string, day: nat, now: nat)
    requires day >= now / DAY
    ensures CountOnDay(calls, phone, day) <= CountSince(calls, phone, TodayStart(now))
  {
    if calls != [] {
      DayWithinSince(calls[..|calls| - 1], phone, day, now);
    }
  }

  lemma {:induction false} StatusChangeCounts(calls: seq<Call>, i: nat, status: CallStatus)
    requires i < |calls| && !Terminal(calls[i].status)
    ensures var changed := calls[i := calls[i].(status := status)];
            && CountActive(changed) <= CountActive(calls)
            && forall phone, day :: CountOnDay(changed, phone, day) == CountOnDay(calls, phone, day)
  {
    var n := |calls| - 1;
    var changed := calls[i := calls[i].(status := status)];
    if i < n {
      StatusChangeCounts(calls[..n], i, status);
      assert changed[..n] == calls[..n][i := calls[i].(status := status)];
    } else {
      assert changed[..n] == calls[..n];
    }
  }

  lemma AcceptedBelowCaps(c: Settings, redis: bool, s: Store, calls: seq<Call>, apiKey: string, phone: string,
                          ip: string, now: nat, r: Reach)
    requires c.enabled && CallCreate(c, redis, s, calls, apiKey, phone, ip, now, r).1.Accepted?
    ensures CountSince(calls, phone, TodayStart(now)) < c.phonePerDay && CountActive(calls) < c.maxConcurrent
  {
  }

  lemma CountsSnoc(calls: seq<Call>, phone: string, day: nat, row: NewRow)
    ensures var more := calls + [Call(row.phone, Created, row.at)];
            && CountActive(more) == CountActive(calls) + 1
            && CountOnDay(more, phone, day)
               == CountOnDay(calls, phone, day) + if row.phone == phone && row.at / DAY == day then 1 else 0
  {
    assert (calls + [Call(row.phone, Created, row.at)])[..|calls|] == calls;
  }

  // ---- The cap on calls that have not ended ----

  /** Rows inserted without a check. */
  function UncheckedRows(events: seq<Timed>, n: nat): nat
    requires n <= |events|
  {
    if n == 0 then 0 else UncheckedRows(events, n - 1) + if events[n - 1].event.Unchecked? then 1 else 0
  }

  lemma StepWithinConcurrency(c: Settings, redis: bool, s: System, e: Timed, extra: nat)
    requires c.enabled && CountActive(s.calls) <= Max(0, c.maxConcurrent) + extra
    ensures CountActive(Step(c, redis, s, e).calls)
            <= Max(0, c.maxConcurrent) + extra + if e.event.Unchecked? then 1 else 0
  {
    match e.event
    case PlaceCall(apiKey, phone, _, ip, reach, Some(row)) =>
      CountsSnoc(s.calls, "", 0, row);
      if Check(c, redis, s, e).1.Accepted? {
        AcceptedBelowCaps(c, redis, s.store, s.calls, apiKey, phone, ip, e.at, reach);
      }
    case Unchecked(row) => CountsSnoc(s.calls, "", 0, row);
    case StatusChange(i, status) =>
      if i < |s.calls| && !Terminal(s.calls[i].status) {
        StatusChangeCounts(s.calls, i, status);
      }
    case _ =>
  }

  /** At every point of every run, with or without Redis: only rows inserted without a check can exceed the cap. */
  lemma {:induction false} ConcurrencyCapHolds(c: Settings, redis: bool, events: seq<Timed>, n: nat)
    requires c.enabled && n <= |events|
    ensures CountActive(After(c, redis, events, n).calls) <= Max(0, c.maxConcurrent) + UncheckedRows(events, n)
    decreases n
  {
    if n > 0 {
      ConcurrencyCapHolds(c, redis, events, n - 1);
      StepWithinConcurrency(c, redis, After(c, redis, events, n - 1), events[n - 1], UncheckedRows(events, n - 1));
    }
  }

  // ---- The cap on calls per phone and day ----

  /** A request whose row, if it gets one, carries the text that is checked. */
  predicate OwnForm(e: Timed) {
    e.event.PlaceCall? && e.event.row.Some? ==> e.event.row.value.phone == e.event.phone
  }

  /** Rows of a phone and day inserted without a check. */
  function UncheckedOnDay(events: seq<Timed>, n: nat, phone: string, day: nat): nat
    requires n <= |events|
  {
    if n == 0 then 0 else UncheckedOnDay(events, n - 1, phone, day) + UncheckedNow(events[n - 1], phone, day)
  }

  function UncheckedNow(e: Timed, phone: string, day: nat): nat {
    if e.event.Unchecked? && e.event.inserted.phone == phone && e.event.inserted.at / DAY == day then 1 else 0
  }

  lemma AcceptedBelowDay(c: Settings, redis: bool, s: System, e: Timed, day: nat)
    requires c.enabled && e.event.PlaceCall? && Check(c, redis, s, e).1.Accepted? && e.at / DAY <= day
    ensures CountOnDay(s.calls, e.event.phone, day) < c.phonePerDay
  {
    var p := e.event;
    AcceptedBelowCaps(c, redis, s.store, s.calls, p.apiKey, p.phone, p.ip, e.at, p.reach);
    DayWithinSince(s.calls, p.phone, day, e.at);
  }

  lemma StepWithinDay(c: Settings, redis: bool, s: System, e: Timed, phone: string, day: nat, extra: nat)
    requires c.enabled && RowNotOlder(e) && OwnForm(e)
    requires CountOnDay(s.calls, phone, day) <= Max(0, c.phonePerDay) + extra
    ensures CountOnDay(Step(c, redis, s, e).calls, phone, day)
            <= Max(0, c.phonePerDay) + extra + UncheckedNow(e, phone, day)
  {
    match e.event
    case PlaceCall(_, number, _, _, _, Some(row)) =>
      CountsSnoc(s.calls, phone, day, row);
      if Check(c, redis, s, e).1.Accepted? && number == phone && row.at / DAY == day {
        AcceptedBelowDay(c, redis, s, e, day);
      }
    case Unchecked(row) => CountsSnoc(s.calls, phone, day, row);
    case StatusChange(i, status) =>
      if i < |s.calls| && !Terminal(s.calls[i].status) {
        StatusChangeCounts(s.calls, i, status);
      }
    case _ =>
  }

  /**
   In every run of requests that give phones in their stored form: only rows inserted without a check can exceed it.
   */
  lemma {:induction false} DailyCapHolds(
    c: Settings, redis: bool, events: seq<Timed>, n: nat, phone: string, day: nat)
    requires c.enabled && n <= |events|
    requires forall i :: 0 <= i < n ==> OwnForm(events[i]) && RowNotOlder(events[i])
    ensures CountOnDay(After(c, redis, events, n).calls, phone, day)
            <= Max(0, c.phonePerDay) + UncheckedOnDay(events, n, phone, day)
    decreases n
  {
    if n > 0 {
      DailyCapHolds(c, redis, events, n - 1, phone, day);
      StepWithinDay(c, redis, After(c, redis, events, n - 1), events[n - 1], phone, day,
                    UncheckedOnDay(events, n - 1, phone, day));
    }
  }

  /** The form in which the text of a request is stored: a normalized phone number, or a browser's label. */
  type Stored = (bool, string) -> string

  predicate StoredBy(stored: Stored, e: Timed) {
    e.event.PlaceCall? && e.event.row.Some? ==> e.event.row.value.phone == stored(e.event.browser, e.event.phone)
  }

  /** A run in which every row comes from a checked request and carries the stored form of its text. */
  ghost predicate Genuine(stored: Stored, events: seq<Timed>) {
    && Chronological(events)
    && forall i :: 0 <= i < |events| ==> StoredBy(stored, events[i]) && !events[i].event.Unchecked?
  }

  lemma {:induction false} NoneUnchecked(events: seq<Timed>, n: nat, phone: string, day: nat)
    requires n <= |events| && forall i :: 0 <= i < n ==> !events[i].event.Unchecked?
    ensures UncheckedOnDay(events, n, phone, day) == 0
    decreases n
  {
    if n > 0 {
      NoneUnchecked(events, n - 1, phone, day);
    }
  }

  const UNREACHED := Reach(false, false, false, false)

  /** A call with the given text that ends at once, k times over, all in the first moment of the first day. */
  function Repeated(stored: Stored, browser: bool, text: string, k: nat): seq<Timed> {
    if k == 0 then []
    else
      Repeated(stored, browser, text, k - 1)
      + [Timed(0, PlaceCall("", text, browser, "", UNREACHED, Some(NewRow(stored(browser, text), 0)))),
         Timed(0, StatusChange(k - 1, Completed))]
  }

  lemma {:induction false} RepeatedGenuine(stored: Stored, browser: bool, text: string, k: nat)
    ensures Genuine(stored, Repeated(stored, browser, text, k))
    ensures forall i :: 0 <= i < |Repeated(stored, browser, text, k)| ==> Repeated(stored, browser, text, k)[i].at == 0
  {
    if k > 0 {
      RepeatedGenuine(stored, browser, text, k - 1);
    }
  }

  /** Rows of one phone that have ended. */
  function EndedRows(phone: string, k: nat): seq<Call> {
    seq(k, _ => Call(phone, Completed, 0))
  }

  lemma {:induction false} EndedRowsCount(phone: string, text: string, k: nat)
    ensures CountActive(EndedRows(phone, k)) == 0 && CountOnDay(EndedRows(phone, k), phone, 0) == k
    ensures text != phone ==> CountSince(EndedRows(phone, k), text, 0) == 0
  {
    if k > 0 {
      assert EndedRows(phone, k)[..k - 1] == EndedRows(phone, k - 1);
      EndedRowsCount(phone, text, k - 1);
    }
  }

  /** Two more events of such a run. */
  lemma OneMore(c: Settings, stored: Stored, browser: bool, text: string, k: nat)
    requires c.enabled && c.phonePerDay > 0 && c.maxConcurrent > 0 && stored(browser, text) != text
    ensures var phone := stored(browser, text); var s := System(map[], EndedRows(phone, k));
            var placed := Step(c, false, s,
                               Timed(0, PlaceCall("", text, browser, "", UNREACHED, Some(NewRow(phone, 0)))));
            && placed == System(map[], EndedRows(phone, k) + [Call(phone, Created, 0)])
            && Step(c, false, placed, Timed(0, StatusChange(k, Completed))) == System(map[], EndedRows(phone, k + 1))
  {
    var phone := stored(browser, text);
    EndedRowsCount(phone, text, k);
    var rows := EndedRows(phone, k) + [Call(phone, Created, 0)];
    assert rows[k := rows[k].(status := Completed)] == EndedRows(phone, k + 1);
  }

  lemma {:induction false} AfterPrefix(c: Settings, redis: bool, front: seq<Timed>, more: seq<Timed>, n: nat)
    requires n <= |front|
    ensures After(c, redis, front + more, n) == After(c, redis, front, n)
    decreases n
  {
    if n > 0 {
      AfterPrefix(c, redis, front, more, n - 1);
    }
  }

  lemma AfterTwo(c: Settings, redis: bool, front: seq<Timed>, d: Timed, e: Timed)
    ensures After(c, redis, front + [d, e], |front| + 2)
            == Step(c, redis, Step(c, redis, After(c, redis, front, |front|), d), e)
  {
    AfterPrefix(c, redis, front, [d, e], |front|);
    assert After(c, redis, front + [d, e], |front| + 1) == Step(c, redis, After(c, redis, front, |front|), d);
  }

  lemma RepeatedNext(c: Settings, stored: Stored, browser: bool, text: string, k: nat)
    requires c.enabled && c.phonePerDay > 0 && c.maxConcurrent > 0 && stored(browser, text) != text
    requires RowsAre(c, Repeated(stored, browser, text, k), EndedRows(stored(browser, text), k))
    ensures RowsAre(c, Repeated(stored, browser, text, k + 1), EndedRows(stored(browser, text), k + 1))
  {
    var placed := Timed(0, PlaceCall("", text, browser, "", UNREACHED, Some(NewRow(stored(browser, text), 0))));
    OneMore(c, stored, browser, text, k);
    AfterTwo(c, false, Repeated(stored, browser, text, k), placed, Timed(0, StatusChange(k, Completed)));
  }

  /** The rows that the whole run leaves without Redis. */
  predicate RowsAre(c: Settings, events: seq<Timed>, rows: seq<Call>) {
    After(c, false, events, |events|) == System(map[], rows)
  }

  lemma {:induction false} RepeatedRows(c: Settings, stored: Stored, browser: bool, text: string, k: nat)
    requires c.enabled && c.phonePerDay > 0 && c.maxConcurrent > 0 && stored(browser, text) != text
    ensures RowsAre(c, Repeated(stored, browser, text, k), EndedRows(stored(browser, text), k))
  {
    if k == 0 {
      assert EndedRows(stored(browser, text), 0) == [];
    } else {
      RepeatedRows(c, stored, browser, text, k - 1);
      RepeatedNext(c, stored, browser, text, k - 1);
    }
  }

  /** A text that is not its own stored form evades the cap: its calls are counted under another text, without end. */
  lemma OtherFormUncapped(c: Settings, stored: Stored, browser: bool, text: string, k: nat) returns (events: seq<Timed>)
    requires c.enabled && c.phonePerDay > 0 && c.maxConcurrent > 0 && stored(browser, text) != text
    ensures Genuine(stored, events)
    ensures CountOnDay(After(c, false, events, |events|).calls, stored(browser, text), 0) == k
  {
    events := Repeated(stored, browser, text, k);
    RepeatedGenuine(stored, browser, text, k);
    RepeatedRows(c, stored, browser, text, k);
    EndedRowsCount(stored(browser, text), text, k);
  }

  /** Every text is stored as it is. */
  ghost predicate StoresAsIs(stored: Stored) {
    forall browser, text :: stored(browser, text) == text
  }

  ghost predicate DailyCapKept(c: Settings, redis: bool, events: seq<Timed>) {
    forall phone, day :: CountOnDay(After(c, redis, events, |events|).calls, phone, day) <= Max(0, c.phonePerDay)
  }

  lemma NoneLetThrough(c: Settings, redis: bool, s: System, e: Timed)
    requires c.enabled && (c.phonePerDay <= 0 || c.maxConcurrent <= 0) && s.calls == [] && !e.event.Unchecked?
    ensures Step(c, redis, s, e).calls == []
  {
  }

  lemma {:induction false} NothingAccepted(c: Settings, redis: bool, events: seq<Timed>, n: nat)
    requires c.enabled && (c.phonePerDay <= 0 || c.maxConcurrent <= 0) && n <= |events|
    requires forall i :: 0 <= i < n ==> !events[i].event.Unchecked?
    ensures After(c, redis, events, n).calls == []
    decreases n
  {
    if n > 0 {
      NothingAccepted(c, redis, events, n - 1);
      NoneLetThrough(c, redis, After(c, redis, events, n - 1), events[n - 1]);
    }
  }

  /**
   The daily cap holds in all runs if and only if every text is stored as it is, or the caps let no call through
   anyway.
   */
  lemma DailyCapExactly(c: Settings, stored: Stored)
    requires c.enabled
    ensures (forall redis, events :: Genuine(stored, events) ==> DailyCapKept(c, redis, events))
            <==> c.phonePerDay <= 0 || c.maxConcurrent <= 0 || StoresAsIs(stored)
  {
    if c.phonePerDay <= 0 || c.maxConcurrent <= 0 {
      forall redis, events | Genuine(stored, events) ensures DailyCapKept(c, redis, events) {
        NothingAccepted(c, redis, events, |events|);
      }
    } else if StoresAsIs(stored) {
      forall redis, events | Genuine(stored, events) ensures DailyCapKept(c, redis, events) {
        AsIsKept(c, stored, redis, events);
      }
    } else {
      var browser, text :| stored(browser, text) != text;
      var events := OtherFormUncapped(c, stored, browser, text, c.phonePerDay + 1);
      assert !DailyCapKept(c, false, events);
    }
  }

  lemma AsIsKept(c: Settings, stored: Stored, redis: bool, events: seq<Timed>)
    requires c.enabled && StoresAsIs(stored) && Genuine(stored, events)
    ensures DailyCapKept(c, redis, events)
  {
    forall i | 0 <= i < |events| ensures OwnForm(events[i]) {
      assert StoredBy(stored, events[i]);
    }
    forall phone, day
      ensures CountOnDay(After(c, redis, events, |events|).calls, phone, day) <= Max(0, c.phonePerDay)
    {
      DailyCapHolds(c, redis, events, |events|, phone, day);
      NoneUnchecked(events, |events|, phone, day);
    }
  }

  // ---- Cooldowns ----

  /**
   Two accepted calls to one phone, or transfers of one, are at least the cooldown apart, provided Redis was up when
   the first set the cooldown and when the second read it.
   */
  lemma AcceptedApart(c: Settings, events: seq<Timed>, d: Cooldown, i: nat, j: nat)
    requires c.enabled && InOrder(events) && i < j < |events|
    requires Sets(events[i], d) && Reads(events[j], d)
    requires VerdictAt(c, true, events, i).Accepted? && VerdictAt(c, true, events, j).Accepted?
    ensures events[j].at >= events[i].at + 1000 * CooldownSeconds(c, d)
  {
    VerdictExactly(c, true, events, j);
    assert SetAt(c, events, d, i);
  }

  /** Events i and j are calls to one stored phone, and Redis is up when i sets the cooldown and j reads it. */
  ghost predicate SamePhone(stored: Stored, a: Timed, b: Timed) {
    && a.event.PlaceCall? && b.event.PlaceCall?
    && stored(a.event.browser, a.event.phone) == stored(b.event.browser, b.event.phone)
    && a.event.reach.store && b.event.reach.lookup
  }

  ghost predicate PhonesApart(c: Settings, stored: Stored, events: seq<Timed>) {
    forall i, j :: 0 <= i < j < |events| && SamePhone(stored, events[i], events[j])
                   && VerdictAt(c, true, events, i).Accepted? && VerdictAt(c, true, events, j).Accepted?
                   ==> events[j].at >= events[i].at + 1000 * c.phoneCooldown
  }

  /** No two texts are stored as one phone. */
  ghost predicate OneText(stored: Stored) {
    forall a, s, b, t :: stored(a, s) == stored(b, t) ==> s == t
  }

  lemma OneTextApart(c: Settings, stored: Stored, events: seq<Timed>)
    requires c.enabled && OneText(stored) && Chronological(events)
    ensures PhonesApart(c, stored, events)
  {
    forall i, j | 0 <= i < j < |events| && SamePhone(stored, events[i], events[j])
                  && VerdictAt(c, true, events, i).Accepted? && VerdictAt(c, true, events, j).Accepted?
      ensures events[j].at >= events[i].at + 1000 * c.phoneCooldown
    {
      AcceptedApart(c, events, OfCalls(events[i].event.phone), i, j);
    }
  }

  const COOLDOWN_ONLY := Reach(false, false, true, true)

  function CallTo(stored: Stored, browser: bool, text: string): Timed {
    Timed(0, PlaceCall("", text, browser, "", COOLDOWN_ONLY, Some(NewRow(stored(browser, text), 0))))
  }

  const FIRST_ENDS := Timed(0, StatusChange(0, Completed))

  /** What the first call of such a run leaves once it has ended. */
  lemma FirstCall(c: Settings, stored: Stored, browser: bool, text: string)
    requires c.enabled && c.phonePerDay > 0 && c.maxConcurrent > 0
    ensures var s := Step(c, true, START, CallTo(stored, browser, text));
            && Check(c, true, START, CallTo(stored, browser, text)).1.Accepted?
            && Step(c, true, s, FIRST_ENDS)
               == System(SetEx(map[], PhoneKey(text), c.phoneCooldown, 0), [Call(stored(browser, text), Completed, 0)])
  {
  }

  lemma OtherText(c: Settings, stored: Stored, store: Store, phone: string, browser: bool, text: string)
    requires c.enabled && c.phonePerDay > 0 && c.maxConcurrent > 0 && text != phone && PhoneKey(text) !in store
    ensures Check(c, true, System(store, [Call(phone, Completed, 0)]), CallTo(stored, browser, text)).1.Accepted?
  {
    assert [Call(phone, Completed, 0)] == EndedRows(phone, 1);
    EndedRowsCount(phone, text, 1);
  }

  /** Two texts of one phone, of which the second is not the stored form, are both accepted at once. */
  lemma TwoTextsAtOnce(c: Settings, stored: Stored, a: bool, s: string, b: bool, t: string) returns (events: seq<Timed>)
    requires c.enabled && c.phonePerDay > 0 && c.maxConcurrent > 0 && c.phoneCooldown > 0
    requires stored(a, s) == stored(b, t) != t && s != t
    ensures Genuine(stored, events) && !PhonesApart(c, stored, events)
  {
    var first, second := CallTo(stored, a, s), CallTo(stored, b, t);
    events := [first, FIRST_ENDS, second];
    FirstCall(c, stored, a, s);
    OtherText(c, stored, SetEx(map[], PhoneKey(s), c.phoneCooldown, 0), stored(a, s), b, t);
    assert After(c, true, events, 1) == Step(c, true, START, first);
    assert VerdictAt(c, true, events, 0).Accepted? && VerdictAt(c, true, events, 2).Accepted?;
    assert SamePhone(stored, events[0], events[2]);
  }

  /**
   Accepted calls to one stored phone are a cooldown apart in all runs if and only if no two texts are stored as one
   phone, or there is no cooldown, or the caps let no call through.
   */
  lemma PhonesApartExactly(c: Settings, stored: Stored)
    requires c.enabled
    ensures (forall events :: Genuine(stored, events) ==> PhonesApart(c, stored, events))
            <==> c.phoneCooldown <= 0 || c.phonePerDay <= 0 || c.maxConcurrent <= 0 || OneText(stored)
  {
    if c.phoneCooldown <= 0 {
      assert forall events :: Genuine(stored, events) ==> PhonesApart(c, stored, events);
    } else if c.phonePerDay <= 0 || c.maxConcurrent <= 0 {
      forall events | Genuine(stored, events) ensures PhonesApart(c, stored, events) {
        NobodyAccepted(c, stored, events);
      }
    } else if OneText(stored) {
      forall events | Genuine(stored, events) ensures PhonesApart(c, stored, events) {
        OneTextApart(c, stored, events);
      }
    } else {
      var a, s, b, t :| stored(a, s) == stored(b, t) && s != t;
      if stored(b, t) != t {
        var events := TwoTextsAtOnce(c, stored, a, s, b, t);
      } else {
        var events := TwoTextsAtOnce(c, stored, b, t, a, s);
      }
    }
  }

  lemma NobodyAccepted(c: Settings, stored: Stored, events: seq<Timed>)
    requires c.enabled && (c.phonePerDay <= 0 || c.maxConcurrent <= 0) && Genuine(stored, events)
    ensures forall i :: 0 <= i < |events| && events[i].event.PlaceCall? ==> !VerdictAt(c, true, events, i).Accepted?
  {
  }

  // ---- Requests per minute ----

  lemma {:induction false} AdmittedPrefix(arrivals: seq<Arrival>, more: seq<Arrival>, n: nat, from: int, until: int)
    requires n <= |arrivals|
    ensures AdmittedBetween(arrivals + more, n, from, until) == AdmittedBetween(arrivals, n, from, until)
    decreases n
  {
    if n > 0 {
      AdmittedPrefix(arrivals, more, n - 1, from, until);
      assert (arrivals + more)[..|arrivals|] == arrivals;
      WindowStartOfPrefix(arrivals + more, |arrivals|, n - 1);
    }
  }

  /** The arrival of event i is there, and admitted. */
  predicate AdmittedAt(at: seq<nat>, reached: seq<bool>, limit: int, i: nat)
    requires i < |at| == |reached|
  {
    var front := Collect(at, reached, limit, i);
    reached[i] && Admitted(front + [Arrival(at[i], limit, 60)], |front|)
  }

  ghost predicate AllAdmitted(at: seq<nat>, reached: seq<bool>, accepted: seq<bool>, limit: int) {
    && |at| == |reached| == |accepted|
    && forall i :: 0 <= i < |at| && accepted[i] ==> AdmittedAt(at, reached, limit, i)
  }

  /** How many of the first n marked times lie in an interval. */
  function CountWithin(at: seq<nat>, marked: seq<bool>, from: int, until: int, n: nat): nat
    requires n <= |at| == |marked|
  {
    if n == 0 then 0
    else CountWithin(at, marked, from, until, n - 1) + if marked[n - 1] && from <= at[n - 1] < until then 1 else 0
  }

  lemma {:induction false} CountedAdmitted(
    at: seq<nat>, reached: seq<bool>, accepted: seq<bool>, limit: int, from: int, until: int, n: nat)
    requires n <= |at| && AllAdmitted(at, reached, accepted, limit)
    ensures var arrivals := Collect(at, reached, limit, n);
            CountWithin(at, accepted, from, until, n) <= AdmittedBetween(arrivals, |arrivals|, from, until)
    decreases n
  {
    if n > 0 {
      var front := Collect(at, reached, limit, n - 1);
      CountedAdmitted(at, reached, accepted, limit, from, until, n - 1);
      AdmittedPrefix(front, [Arrival(at[n - 1], limit, 60)], |front|, from, until);
      assert accepted[n - 1] ==> AdmittedAt(at, reached, limit, n - 1);
      assert front + [] == front;
    }
  }

  /** Which events are meant for the counter and accepted. */
  function AcceptedFor(c: Settings, events: seq<Timed>, k: Counter): (accepted: seq<bool>)
    ensures |accepted| == |events|
  {
    seq(|events|, i requires 0 <= i < |events| => Subject(events[i], k) && VerdictAt(c, true, events, i).Accepted?)
  }

  /** How many are, from one time on and before another. */
  function AcceptedRequests(c: Settings, events: seq<Timed>, k: Counter, from: int, until: int): nat {
    CountWithin(Moments(events), AcceptedFor(c, events, k), from, until, |events|)
  }

  lemma AcceptedAdmitted(c: Settings, events: seq<Timed>, k: Counter, i: nat)
    requires c.enabled && i < |events| && AcceptedFor(c, events, k)[i]
    ensures AdmittedAt(Moments(events), Reached(c, events, k), Limit(c, k), i)
  {
    StepMirrors(c, After(c, true, events, i), events[i], k);
    CounterDecides(c, events, i, k);
  }

  lemma AllAcceptedAdmitted(c: Settings, events: seq<Timed>, k: Counter)
    requires c.enabled
    ensures AllAdmitted(Moments(events), Reached(c, events, k), AcceptedFor(c, events, k), Limit(c, k))
  {
    forall i | 0 <= i < |events| && AcceptedFor(c, events, k)[i]
      ensures AdmittedAt(Moments(events), Reached(c, events, k), Limit(c, k), i)
    {
      AcceptedAdmitted(c, events, k, i);
    }
  }

  /**
   With Redis up, any minute accepts fewer than twice the per-minute limit of one API key's calls, of one
   address's calls, and of one call's steering instructions, whatever else happens in between.
   */
  lemma RequestsPerMinuteBound(c: Settings, events: seq<Timed>, k: Counter, from: int)
    requires c.enabled && InOrder(events)
    ensures var accepted := AcceptedRequests(c, events, k, from, from + 60_000);
            if Limit(c, k) >= 1 then accepted <= 2 * Limit(c, k) - 1 else accepted == 0
  {
    ArrivalsUniform(c, events, |events|, k);
    AllAcceptedAdmitted(c, events, k);
    CountedAdmitted(Moments(events), Reached(c, events, k), AcceptedFor(c, events, k), Limit(c, k), from, from + 60_000,
                    |events|);
    IntervalBound(Arrivals(c, events, |events|, k), Limit(c, k), 60, from);
  }
}
