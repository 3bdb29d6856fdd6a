/**
 Several transfer requests for one call. Each takes the row lock, checks the guard and keeps the lock until its
 transaction ends. Whenever the lock is free, other writers of the row may do what they are allowed to. A session
 may have loaded the call before its request takes the lock; then the guard tests that copy.
 */
module TransferLock {
  import opened Seqs
  import opened TransferModel
  import opened TransferSpec
  import opened TransferTheorems

  /** One request: what it asks for, the managers and the setting it finds, and the outside world it meets. */
  datatype Request = Request(world: World, table: seq<Manager>, department: Option<string>, limit: int)

  /**
   `mayWrite` says which status other writers may put in place of which, `loadsEarly` whether sessions may load the
   call before their request takes the lock, `commitsOnError` whether a request that raises commits or rolls back.
   */
  datatype Setup = Setup(
    info: CallInfo,
    mayWrite: (CallStatus, CallStatus) -> bool,
    loadsEarly: bool,
    commitsOnError: bool)

  datatype Row = Row(status: CallStatus, manager: Option<Id>)

  /**
   The lock is free, or held by a request that found the row as `before` and has yet to write `todo`; meanwhile
   others see the status `outside`.
   */
  datatype Holder = Free | Held(request: Request, before: Row, outside: CallStatus, todo: seq<StatusEvent>)

  /**
   `passed` requests got past the guard, of which `stale` only by their copies; of their records `committed` stayed
   and `undone` were rolled back. `reopened` counts writes by others that opened the shut guard, `shut` the times it
   was shut without a commit.
   */
  datatype Tally = Tally(
    passed: nat, stale: nat, committed: nat, undone: nat, connected: nat, reopened: nat, shut: nat)

  /** `loaded` are the copies that sessions hold. */
  datatype State = State(row: Row, holder: Holder, loaded: map<nat, CallStatus>, tally: Tally)

  function Fresh(row: Row): State {
    State(row, Free, map[], Tally(0, 0, 0, 0, 0, 0, 0))
  }

  datatype Action =
    | Load(session: nat)
    | Acquire(session: nat, request: Request)
    | Advance
    | Release
    | Elsewhere(status: CallStatus)

  function Result(info: CallInfo, r: Request, row: Row): (Run, Outcome) {
    Transfer(r.world, info, Tried(r.table, r.department, r.limit), row.status, row.manager)
  }

  /** The committed status of the call. */
  function Visible(s: State): CallStatus {
    if s.holder.Free? then s.row.status else s.holder.outside
  }

  function Copy(s: State, session: nat): Option<CallStatus> {
    if session in s.loaded then Some(s.loaded[session]) else None
  }

  /** A request passes if its session takes the call to be transferable and there is somebody to call. */
  predicate Passes(s: State, session: nat, r: Request) {
    Transferable(GuardReads(Copy(s, session), s.row.status)) && HasManager(r)
  }

  predicate HasManager(r: Request) {
    Candidates(r.table, r.department) != []
  }

  function Started(u: Setup, s: State, session: nat, r: Request): State {
    s.(holder := Held(r, s.row, s.row.status, Result(u.info, r, s.row).0.statuses),
       loaded := s.loaded - {session},
       tally := s.tally.(passed := s.tally.passed + 1,
                         stale := s.tally.stale + if Transferable(s.row.status) then 0 else 1))
  }

  function Advanced(s: State): State
    requires s.holder.Held? && s.holder.todo != []
  {
    var e := s.holder.todo[0];
    s.(row := s.row.(status := e.status),
       holder := s.holder.(todo := s.holder.todo[1..], outside := if e.Ended? then e.status else s.holder.outside))
  }

  function Closed(u: Setup, s: State): State
    requires s.holder.Held?
  {
    var (end, outcome) := Result(u.info, s.holder.request, s.holder.before);
    if outcome.Success? || u.commitsOnError then
      s.(holder := Free, row := s.row.(manager := end.callManager),
         tally := s.tally.(committed := s.tally.committed + 1,
                           connected := s.tally.connected + if outcome.Success? then 1 else 0))
    else
      s.(holder := Free, row := s.holder.before.(status := s.holder.outside),
         tally := s.tally.(undone := s.tally.undone + 1,
                           shut := s.tally.shut + if Transferable(s.holder.outside) then 0 else 1))
  }

  function Overwritten(s: State, status: CallStatus): State {
    var was, now := Transferable(s.row.status), Transferable(status);
    s.(row := s.row.(status := status),
       tally := s.tally.(reopened := s.tally.reopened + if !was && now then 1 else 0,
                         shut := s.tally.shut + if was && !now then 1 else 0))
  }

  /**
   One step of the whole system; a step that is not enabled, or a refused request, changes nothing. A session keeps
   the copy it loaded first until its request has passed.
   */
  function Step(u: Setup, s: State, a: Action): State {
    match a
    case Load(session) =>
      if u.loadsEarly && session !in s.loaded then s.(loaded := s.loaded[session := Visible(s)]) else s
    case Acquire(session, request) =>
      if s.holder.Free? && Passes(s, session, request) then Started(u, s, session, request) else s
    case Advance => if s.holder.Held? && s.holder.todo != [] then Advanced(s) else s
    case Release => if s.holder.Held? && s.holder.todo == [] then Closed(u, s) else s
    case Elsewhere(status) => if s.holder.Free? && u.mayWrite(s.row.status, status) then Overwritten(s, status) else s
  }

  function Steps(u: Setup, s: State, actions: seq<Action>): State
    decreases |actions|
  {
    if actions == [] then s else Steps(u, Step(u, s, actions[0]), actions[1..])
  }

  lemma {:induction false} StepsAppend(u: Setup, s: State, a: seq<Action>, b: seq<Action>)
    ensures Steps(u, s, a + b) == Steps(u, Steps(u, s, a), b)
    decreases |a|
  {
    if a == [] {
      assert a + b == b;
    } else {
      assert (a + b)[1..] == a[1..] + b;
      StepsAppend(u, Step(u, s, a[0]), a[1..], b);
    }
  }

  lemma OneStep(u: Setup, s: State, a: Action)
    ensures Steps(u, s, [a]) == Step(u, s, a)
  {
    assert [a][1..] == [];
  }

  // ---- How often the guard is passed ----

  /** Whether a record may still be committed before anybody reopens the guard or passes by a copy. */
  function Open(s: State): nat {
    if s.holder.Held? || Transferable(s.row.status) then 1 else 0
  }

  /**
   The books of a run: every opening of the guard, at the start, by others or by a stale copy, is used up by one
   committed record or by a shutting without one.
   */
  ghost predicate Balanced(u: Setup, start: Row, s: State) {
    var t := s.tally;
    && t.passed == t.committed + t.undone + (if s.holder.Held? then 1 else 0)
    && t.committed + t.shut + Open(s) == Open(Fresh(start)) + t.reopened + t.stale
    && t.stale <= t.passed && t.connected <= t.committed
    && (if u.commitsOnError then t.undone == 0 else t.connected == t.committed)
    && (s.holder.Held? ==> !Transferable(StatusAfter(s.row.status, s.holder.todo)))
  }

  lemma {:induction false} TracksToEnd(w: World, info: CallInfo, managers: seq<Id>, k: nat, start: CallStatus, r: Run)
    requires k <= |managers| && Tracks(start, r)
    ensures Tracks(start, Attempts(w, info, managers, k, r).0)
    decreases |managers| - k
  {
    if k < |managers| {
      var m := managers[k];
      var s := Select(w, m, k, r);
      if !Gone(w, s) {
        var t := Wait(s, w.duringDial(k));
        match w.dial(k)
        case Answered(leg) => TracksBriefing(w, info, m, leg, start, t.(legs := t.legs + [LegAnswered(m, leg)]));
        case NoAnswerInTime => TracksToEnd(w, info, managers, k + 1, start, t.(marked := t.marked + [m]));
        case DialError => TracksToEnd(w, info, managers, k + 1, start, t.(marked := t.marked + [m]));
      }
    }
  }

  lemma TracksBriefing(w: World, info: CallInfo, m: Id, leg: Option<string>, start: CallStatus, r: Run)
    requires Tracks(start, r)
    ensures Tracks(start, BriefingPhase(w, info, m, leg, r).0)
  {
    if !Gone(w, r) && w.whisper.Done? {
      var t := Wait(Brief(m, leg, r), w.duringWhisper);
      TracksBridge(w, info, leg, start, t.(legs := t.legs + [LegBriefed(leg)]));
    }
  }

  lemma TracksBridge(w: World, info: CallInfo, leg: Option<string>, start: CallStatus, r: Run)
    requires Tracks(start, r)
    ensures Tracks(start, BridgePhase(w, info, leg, r).0)
  {
    if !Gone(w, r) {
      TracksJoin(w, info, leg, start, Wait(r, w.duringBridge));
    }
  }

  lemma TracksJoin(w: World, info: CallInfo, leg: Option<string>, start: CallStatus, r: Run)
    requires Tracks(start, r)
    ensures Tracks(start, JoinPhase(w, info, leg, r).0)
  {
  }

  /** The log of a run ends with its final status, in which the guard is shut. */
  lemma ResultShutsGuard(info: CallInfo, r: Request, row: Row)
    ensures var end := Result(info, r, row).0;
            StatusAfter(row.status, end.statuses) == end.status && !Transferable(end.status)
  {
    var tried := Tried(r.table, r.department, r.limit);
    EveryExitPaired(r.world, info, tried, row.status, row.manager);
    TracksToEnd(r.world, info, tried, 0, row.status, Begin(row.status, row.manager));
  }

  lemma LastAfter(status: CallStatus, todo: seq<StatusEvent>)
    requires todo != []
    ensures StatusAfter(todo[0].status, todo[1..]) == StatusAfter(status, todo)
  {
    if |todo| > 1 {
      assert todo[1..][|todo| - 2] == todo[|todo| - 1];
    }
  }

  lemma StepKeepsBalance(u: Setup, start: Row, s: State, a: Action)
    requires Balanced(u, start, s)
    ensures Balanced(u, start, Step(u, s, a))
  {
    match a
    case Load(_) =>
    case Acquire(_, request) => ResultShutsGuard(u.info, request, s.row);
    case Advance =>
      if s.holder.Held? && s.holder.todo != [] {
        LastAfter(s.row.status, s.holder.todo);
      }
    case Release =>
    case Elsewhere(_) =>
  }

  lemma {:induction false} StepsKeepBalance(u: Setup, start: Row, s: State, actions: seq<Action>)
    requires Balanced(u, start, s)
    ensures Balanced(u, start, Steps(u, s, actions))
    decreases |actions|
  {
    if actions != [] {
      StepKeepsBalance(u, start, s, actions[0]);
      StepsKeepBalance(u, start, Step(u, s, actions[0]), actions[1..]);
    }
  }

  /** In every interleaving of any requests with any other writers the books balance. */
  lemma TransfersAccounted(u: Setup, start: Row, actions: seq<Action>)
    ensures Balanced(u, start, Steps(u, Fresh(start), actions))
    ensures var t := Steps(u, Fresh(start), actions).tally; t.committed <= 1 + t.reopened + t.stale
  {
    StepsKeepBalance(u, start, Fresh(start), actions);
  }

  // ---- When at most one transfer is committed ----

  /** A status in which a committed record may leave the call. */
  predicate EndStatus(u: Setup, status: CallStatus) {
    status.ConnectedToManager? || (u.commitsOnError && Terminal(status))
  }

  /** Other writers may take the call along the path. */
  predicate Writable(u: Setup, path: seq<CallStatus>) {
    path != [] && forall i :: 0 < i < |path| ==> u.mayWrite(path[i - 1], path[i])
  }

  ghost predicate LeadsOut(u: Setup, path: seq<CallStatus>, to: CallStatus) {
    Writable(u, path) && EndStatus(u, path[0]) && path[|path| - 1] == to
  }

  /** Other writers can take a call that was transferred back to where it can be transferred. */
  ghost predicate CanReopen(u: Setup) {
    exists path :: path != [] && LeadsOut(u, path, path[|path| - 1]) && Transferable(path[|path| - 1])
  }

  ghost predicate Reached(u: Setup, status: CallStatus) {
    exists path :: LeadsOut(u, path, status)
  }

  lemma ReachedNext(u: Setup, from: CallStatus, to: CallStatus)
    requires Reached(u, from) && u.mayWrite(from, to)
    ensures Reached(u, to)
  {
    var path :| LeadsOut(u, path, from);
    assert LeadsOut(u, path + [to], to);
  }

  lemma ReachedShut(u: Setup, status: CallStatus)
    requires !CanReopen(u) && Reached(u, status)
    ensures !Transferable(status)
  {
    var path :| LeadsOut(u, path, status);
  }

  /** At most one record so far, and once there is one the guard stays shut. */
  ghost predicate OnceAtMost(u: Setup, s: State) {
    && s.loaded == map[]
    && (s.holder.Held? ==> s.tally.committed == 0 && CurrentRun(u, s))
    && s.tally.committed <= 1
    && (s.tally.committed == 1 ==> Reached(u, s.row.status))
  }

  /** The row follows the run of the request that holds the lock. */
  ghost predicate CurrentRun(u: Setup, s: State)
    requires s.holder.Held?
  {
    var end := Result(u.info, s.holder.request, s.holder.before).0;
    StatusAfter(s.row.status, s.holder.todo) == end.status
  }

  lemma EndReached(u: Setup, s: State)
    requires s.holder.Held? && s.holder.todo == [] && CurrentRun(u, s)
    ensures Closed(u, s).tally.committed == s.tally.committed + 1 ==> Reached(u, s.row.status)
  {
    var r, row := s.holder.request, s.holder.before;
    var (end, outcome) := Result(u.info, r, row);
    EveryExitPaired(r.world, u.info, Tried(r.table, r.department, r.limit), row.status, row.manager);
    if outcome.Success? || u.commitsOnError {
      assert LeadsOut(u, [end.status], end.status);
    }
  }

  lemma StepKeepsOnce(u: Setup, s: State, a: Action)
    requires !CanReopen(u) && !u.loadsEarly && OnceAtMost(u, s)
    ensures OnceAtMost(u, Step(u, s, a))
  {
    if s.tally.committed == 1 {
      ReachedShut(u, s.row.status);
    }
    match a
    case Load(_) =>
    case Acquire(_, request) => ResultShutsGuard(u.info, request, s.row);
    case Advance =>
      if s.holder.Held? && s.holder.todo != [] {
        LastAfter(s.row.status, s.holder.todo);
      }
    case Release =>
      if s.holder.Held? && s.holder.todo == [] {
        EndReached(u, s);
      }
    case Elsewhere(status) =>
      if s.tally.committed == 1 && u.mayWrite(s.row.status, status) {
        ReachedNext(u, s.row.status, status);
      }
  }

  lemma {:induction false} StepsKeepOnce(u: Setup, s: State, actions: seq<Action>)
    requires !CanReopen(u) && !u.loadsEarly && OnceAtMost(u, s)
    ensures OnceAtMost(u, Steps(u, s, actions))
    decreases |actions|
  {
    if actions != [] {
      StepKeepsOnce(u, s, actions[0]);
      StepsKeepOnce(u, Step(u, s, actions[0]), actions[1..]);
    }
  }

  // ---- A request from its lock to its release ----

  function Advances(n: nat): seq<Action> {
    seq(n, _ => Advance)
  }

  /** What others see once the events have happened. */
  function SeenAfter(outside: CallStatus, todo: seq<StatusEvent>): CallStatus
    decreases |todo|
  {
    if todo == [] then outside else SeenAfter(if todo[0].Ended? then todo[0].status else outside, todo[1..])
  }

  lemma {:induction false} AdvanceAll(u: Setup, s: State)
    requires s.holder.Held?
    ensures var todo := s.holder.todo;
            Steps(u, s, Advances(|todo|))
            == s.(row := s.row.(status := StatusAfter(s.row.status, todo)),
                  holder := s.holder.(todo := [], outside := SeenAfter(s.holder.outside, todo)))
    decreases |s.holder.todo|
  {
    var todo := s.holder.todo;
    if todo != [] {
      assert Advances(|todo|)[1..] == Advances(|todo| - 1);
      LastAfter(s.row.status, todo);
      AdvanceAll(u, Step(u, s, Advance));
    }
  }

  /** A request that is not disturbed. */
  function Whole(u: Setup, s: State, session: nat, r: Request): seq<Action> {
    [Acquire(session, r)] + Advances(|Result(u.info, r, s.row).0.statuses|) + [Release]
  }

  /** What it leaves. */
  ghost predicate Served(u: Setup, s: State, session: nat, r: Request, after: State) {
    var (end, outcome) := Result(u.info, r, s.row);
    && after.holder.Free? && after.loaded == s.loaded - {session}
    && after.tally.passed == s.tally.passed + 1 && after.tally.reopened == s.tally.reopened
    && after.tally.stale == s.tally.stale + (if Transferable(s.row.status) then 0 else 1)
    && after.tally.connected == s.tally.connected + (if outcome.Success? then 1 else 0)
    && (if outcome.Success? || u.commitsOnError
        then after.tally.committed == s.tally.committed + 1 && after.row == Row(end.status, end.callManager)
        else after.tally.committed == s.tally.committed
             && after.row == s.row.(status := SeenAfter(s.row.status, end.statuses)))
  }

  lemma WholeRun(u: Setup, s: State, session: nat, r: Request)
    requires s.holder.Free? && Passes(s, session, r)
    ensures Served(u, s, session, r, Steps(u, s, Whole(u, s, session, r)))
  {
    var n := |Result(u.info, r, s.row).0.statuses|;
    var taken := Step(u, s, Acquire(session, r));
    StepsAppend(u, s, [Acquire(session, r)] + Advances(n), [Release]);
    StepsAppend(u, s, [Acquire(session, r)], Advances(n));
    OneStep(u, s, Acquire(session, r));
    AdvanceAll(u, taken);
    OneStep(u, Steps(u, taken, Advances(n)), Release);
    ResultShutsGuard(u.info, r, s.row);
  }

  const SOMEBODY := Manager(1, None, 0, 0, true, true)

  /** A world that is asked for one dial. */
  function OneDial(dial: Dial): World {
    World(true, _ => OnLine, _ => dial, _ => OnLine, Done, OnLine, Done, OnLine, true)
  }

  function OneManager(world: World): Request {
    Request(world, [SOMEBODY], None, 0)
  }

  lemma OneIsTried()
    ensures Candidates([SOMEBODY], None) == [SOMEBODY] && Tried([SOMEBODY], None, 0) == [1]
  {
    assert [SOMEBODY][1..] == [];
    assert Filter([SOMEBODY][1..], None) == [];
    assert Filter([SOMEBODY], None) == [SOMEBODY];
    assert SortByPriority([]) == [];
    assert SortByPriority([SOMEBODY]) == [SOMEBODY];
  }

  /** A request that connects. */
  const LUCKY := OneManager(OneDial(Answered(Some("leg"))))

  lemma LuckyConnects(info: CallInfo, row: Row)
    ensures HasManager(LUCKY)
    ensures var (end, outcome) := Result(info, LUCKY, row); outcome.Success? && end.status == ConnectedToManager
  {
    OneIsTried();
    EveryExitPaired(LUCKY.world, info, [1], row.status, row.manager);
  }

  /** A request nobody answers. */
  const UNLUCKY := OneManager(OneDial(DialError))

  lemma UnluckyFails(info: CallInfo, row: Row)
    ensures HasManager(UNLUCKY)
    ensures var (end, outcome) := Result(info, UNLUCKY, row);
            outcome.TransferError? && end.statuses == [Wrote(NeedsTransfer), Wrote(Transferring), Wrote(Stopped)]
  {
    OneIsTried();
    var w, r := OneDial(DialError), Begin(row.status, row.manager);
    var t := Wait(Select(w, 1, 0, r), OnLine);
    assert Attempts(w, info, [1], 0, r) == Attempts(w, info, [1], 1, t.(marked := t.marked + [1]));
  }

  /** A request the caller leaves before the first dial, in a session that reads the row. */
  function Abandoned(how: Ending): Request {
    OneManager(World(true, _ => HungUp(how), _ => DialError, _ => OnLine, Done, OnLine, Done, OnLine, true))
  }

  lemma AbandonedDrops(info: CallInfo, row: Row, how: Ending)
    ensures HasManager(Abandoned(how))
    ensures var (end, outcome) := Result(info, Abandoned(how), row);
            outcome.CallerDroppedError? && end.status == how.Status()
  {
    OneIsTried();
  }

  /** A request that ends in a given status and whose record is committed. */
  lemma EndsIn(u: Setup, row: Row, status: CallStatus) returns (r: Request)
    requires EndStatus(u, status)
    ensures HasManager(r)
    ensures var (end, outcome) := Result(u.info, r, row); (outcome.Success? || u.commitsOnError) && end.status == status
  {
    if status.ConnectedToManager? {
      r := LUCKY;
      LuckyConnects(u.info, row);
    } else {
      var how := if status.Completed? then ToCompleted else if status.Failed? then ToFailed else ToStopped;
      r := Abandoned(how);
      AbandonedDrops(u.info, row, how);
    }
  }

  function Writes(path: seq<CallStatus>): seq<Action> {
    seq(|path|, i requires 0 <= i < |path| => Elsewhere(path[i]))
  }

  lemma {:induction false} WritesPath(u: Setup, s: State, path: seq<CallStatus>)
    requires s.holder.Free? && Writable(u, path) && path[0] == s.row.status
    ensures var after := Steps(u, s, Writes(path[1..]));
            && after.holder.Free? && after.loaded == s.loaded
            && after.tally.committed == s.tally.committed && after.row.status == path[|path| - 1]
    decreases |path|
  {
    if |path| > 1 {
      var rest := path[1..];
      assert Writes(rest)[1..] == Writes(rest[1..]);
      assert u.mayWrite(path[0], path[1]);
      assert forall i :: 0 < i < |rest| ==> rest[i - 1] == path[i] && rest[i] == path[i + 1];
      WritesPath(u, Step(u, s, Elsewhere(path[1])), rest);
    }
  }

  /** One whole request after the given run. */
  lemma ThenServed(u: Setup, start: Row, before: seq<Action>, session: nat, r: Request) returns (actions: seq<Action>)
    requires var s := Steps(u, Fresh(start), before); s.holder.Free? && Passes(s, session, r)
    ensures Served(u, Steps(u, Fresh(start), before), session, r, Steps(u, Fresh(start), actions))
  {
    var s := Steps(u, Fresh(start), before);
    WholeRun(u, s, session, r);
    StepsAppend(u, Fresh(start), before, Whole(u, s, session, r));
    actions := before + Whole(u, s, session, r);
  }

  /** A path back gives a run with two committed records, none of them by a stale copy. */
  lemma TwoAlongPath(u: Setup, row: Row, path: seq<CallStatus>) returns (actions: seq<Action>)
    requires Transferable(row.status)
    requires path != [] && LeadsOut(u, path, path[|path| - 1]) && Transferable(path[|path| - 1])
    ensures Steps(u, Fresh(row), actions).tally.committed == 2
  {
    var first := EndsIn(u, row, path[0]);
    var one := ThenServed(u, row, [], 0, first);
    WritesPath(u, Steps(u, Fresh(row), one), path);
    StepsAppend(u, Fresh(row), one, Writes(path[1..]));
    LuckyConnects(u.info, Steps(u, Fresh(row), one + Writes(path[1..])).row);
    actions := ThenServed(u, row, one + Writes(path[1..]), 0, LUCKY);
  }

  /**
   Two sessions that load the call before either locks it both have their records committed, without any other
   writer.
   */
  lemma TwoByStaleCopy(u: Setup, row: Row) returns (actions: seq<Action>)
    requires u.loadsEarly && Transferable(row.status)
    ensures var s := Steps(u, Fresh(row), actions);
            s.tally.committed == s.tally.connected == 2 && s.tally.stale == 1 && s.tally.reopened == 0
  {
    var loads := [Load(0), Load(1)];
    LoadTwo(u, row);
    LuckyConnects(u.info, row);
    var one := ThenServed(u, row, loads, 0, LUCKY);
    var s := Steps(u, Fresh(row), one);
    LuckyConnects(u.info, s.row);
    actions := ThenServed(u, row, one, 1, LUCKY);
  }

  lemma LoadTwo(u: Setup, row: Row)
    requires u.loadsEarly
    ensures Steps(u, Fresh(row), [Load(0), Load(1)]) == Fresh(row).(loaded := map[0 := row.status, 1 := row.status])
  {
    assert [Load(0), Load(1)][1..] == [Load(1)];
    OneStep(u, Step(u, Fresh(row), Load(0)), Load(1));
  }

  /**
   At most one record of a call is ever committed, in every interleaving of any requests, if and only if no session
   loads the call before its request takes the lock, and other writers cannot take a call from where a committed
   transfer leaves it to where it can be transferred.
   */
  lemma AtMostOneExactly(u: Setup, row: Row)
    requires Transferable(row.status)
    ensures (forall actions :: Steps(u, Fresh(row), actions).tally.committed <= 1) <==> !u.loadsEarly && !CanReopen(u)
  {
    if u.loadsEarly {
      var actions := TwoByStaleCopy(u, row);
      assert Steps(u, Fresh(row), actions).tally.committed > 1;
    } else if CanReopen(u) {
      var path :| path != [] && LeadsOut(u, path, path[|path| - 1]) && Transferable(path[|path| - 1]);
      var actions := TwoAlongPath(u, row, path);
      assert Steps(u, Fresh(row), actions).tally.committed > 1;
    } else {
      forall actions ensures Steps(u, Fresh(row), actions).tally.committed <= 1 {
        StepsKeepOnce(u, Fresh(row), actions);
      }
    }
  }

  /** Writers none of whose single writes opens a shut guard. */
  ghost predicate NeverOpens(u: Setup) {
    forall from, to :: u.mayWrite(from, to) && !Transferable(from) ==> !Transferable(to)
  }

  lemma {:induction false} NothingReopened(u: Setup, s: State, actions: seq<Action>)
    requires NeverOpens(u)
    ensures Steps(u, s, actions).tally.reopened == s.tally.reopened
    decreases |actions|
  {
    if actions != [] {
      NothingReopened(u, Step(u, s, actions[0]), actions[1..]);
    }
  }

  /** If no single write opens the guard, every further record was committed by a stale copy. */
  lemma FurtherByStaleCopy(u: Setup, row: Row, actions: seq<Action>)
    requires NeverOpens(u)
    ensures var t := Steps(u, Fresh(row), actions).tally;
            t.connected <= t.committed <= 1 + t.stale && (u.commitsOnError ==> t.passed <= 1 + t.stale)
  {
    TransfersAccounted(u, row, actions);
    NothingReopened(u, Fresh(row), actions);
  }

  lemma {:induction false} NothingStale(u: Setup, s: State, actions: seq<Action>)
    requires !u.loadsEarly && s.loaded == map[]
    ensures Steps(u, s, actions).tally.stale == s.tally.stale && Steps(u, s, actions).loaded == map[]
    decreases |actions|
  {
    if actions != [] {
      NothingStale(u, Step(u, s, actions[0]), actions[1..]);
    }
  }

  /**
   If besides no session loads early, at most one record is committed; if errors commit, at most one request passes.
   */
  lemma AtMostOneTransfer(u: Setup, row: Row, actions: seq<Action>)
    requires NeverOpens(u) && !u.loadsEarly
    ensures var s := Steps(u, Fresh(row), actions);
            && s.tally.connected <= s.tally.committed <= 1
            && (u.commitsOnError ==> s.tally.passed <= 1)
            && (s.tally.committed == 1 ==> s.holder.Free? && !Transferable(s.row.status))
  {
    TransfersAccounted(u, row, actions);
    NothingReopened(u, Fresh(row), actions);
    NothingStale(u, Fresh(row), actions);
  }

  lemma FirstWrite(u: Setup, path: seq<CallStatus>)
    requires Writable(u, path) && |path| > 1
    ensures u.mayWrite(path[0], path[1])
  {
  }

  /** A writer that would open the guard does no harm where no committed transfer leads to it. */
  lemma OpeningOutOfReach(info: CallInfo, commits: bool)
    ensures var u := Setup(info, (from, to) => from == Transferring && to == InProgress, false, commits);
            !NeverOpens(u) && !CanReopen(u)
  {
    var u := Setup(info, (from, to) => from == Transferring && to == InProgress, false, commits);
    assert u.mayWrite(Transferring, InProgress);
    forall path | path != [] && LeadsOut(u, path, path[|path| - 1]) ensures !Transferable(path[|path| - 1]) {
      if |path| > 1 {
        FirstWrite(u, path);
      }
    }
  }

  /** Writers that keep to the status graph. */
  ghost predicate KeepsToGraph(u: Setup) {
    forall from, to :: u.mayWrite(from, to) ==> Edge(from, to)
  }

  lemma GraphNeverOpens(u: Setup)
    requires KeepsToGraph(u)
    ensures NeverOpens(u)
  {
  }

  lemma GraphAtMostOne(u: Setup, row: Row, actions: seq<Action>)
    requires KeepsToGraph(u) && !u.loadsEarly
    ensures var t := Steps(u, Fresh(row), actions).tally;
            t.connected <= t.committed <= 1 && (u.commitsOnError ==> t.passed <= 1)
  {
    GraphNeverOpens(u);
    AtMostOneTransfer(u, row, actions);
  }

  /**
   What the webhook processor writes: any mapped status, or a request for transfer, over any status that is not
   terminal.
   */
  predicate WebhookWrites(from: CallStatus, to: CallStatus) {
    !Terminal(from) && to in {Queued, Ringing, InProgress, Transferring, NeedsTransfer, Completed, Failed}
  }

  /** The webhook processor can take a connected call back, so that a second transfer is committed. */
  lemma WebhooksReopen(info: CallInfo, commits: bool, row: Row) returns (actions: seq<Action>)
    requires Transferable(row.status)
    ensures var u := Setup(info, WebhookWrites, false, commits); var t := Steps(u, Fresh(row), actions).tally;
            CanReopen(u) && t.committed == 2 && t.stale == 0 && t.reopened >= 1 && (!commits ==> t.connected == 2)
  {
    var u, path := Setup(info, WebhookWrites, false, commits), [ConnectedToManager, InProgress];
    assert LeadsOut(u, path, InProgress);
    actions := TwoAlongPath(u, row, path);
    TransfersAccounted(u, row, actions);
    NothingStale(u, Fresh(row), actions);
  }

  /** If errors are rolled back, a request that fails leaves the guard open for the next. */
  lemma RolledBackPassesAgain(u: Setup, row: Row) returns (actions: seq<Action>)
    requires !u.commitsOnError && Transferable(row.status)
    ensures var s := Steps(u, Fresh(row), actions);
            s.tally.passed == s.tally.undone == 2 && s.tally.committed == 0 && s.row == row && s.holder.Free?
  {
    UnluckyFails(u.info, row);
    NothingToSee(row.status);
    var one := ThenServed(u, row, [], 0, UNLUCKY);
    actions := ThenServed(u, row, one, 0, UNLUCKY);
    TransfersAccounted(u, row, actions);
  }

  lemma NothingToSee(status: CallStatus)
    ensures SeenAfter(status, [Wrote(NeedsTransfer), Wrote(Transferring), Wrote(Stopped)]) == status
  {
    var log := [Wrote(NeedsTransfer), Wrote(Transferring), Wrote(Stopped)];
    assert log[1..] == [Wrote(Transferring), Wrote(Stopped)] && log[1..][1..] == [Wrote(Stopped)];
    assert log[1..][1..][1..] == [];
  }

  // ---- Requests that find no manager ----

  /** A request with nobody to call can be struck from any run at any place without a difference. */
  lemma NoManagerNoTrace(u: Setup, s: State, before: seq<Action>, session: nat, r: Request, after: seq<Action>)
    requires !HasManager(r)
    ensures Steps(u, s, before + [Acquire(session, r)] + after) == Steps(u, s, before + after)
  {
    StepsAppend(u, s, before + [Acquire(session, r)], after);
    StepsAppend(u, s, before, [Acquire(session, r)]);
    StepsAppend(u, s, before, after);
    OneStep(u, Steps(u, s, before), Acquire(session, r));
  }

  /** Actions that are all requests with nobody to call. */
  ghost predicate AllRefused(actions: seq<Action>) {
    forall i :: 0 <= i < |actions| ==> actions[i].Acquire? && !HasManager(actions[i].request)
  }

  lemma {:induction false} RefusedNoTrace(u: Setup, s: State, refused: seq<Action>)
    requires AllRefused(refused)
    ensures Steps(u, s, refused) == s
    decreases |refused|
  {
    if refused != [] {
      RefusedNoTrace(u, s, refused[1..]);
    }
  }

  /**
   After any number of them in any run, a request that has somebody to call starts exactly when it would have at once:
   if the lock is free and the status its session goes by can be transferred.
   */
  lemma RetryStarts(u: Setup, s: State, before: seq<Action>, refused: seq<Action>, session: nat, r: Request)
    requires AllRefused(refused) && HasManager(r)
    ensures var was, now := Steps(u, s, before), Steps(u, s, before + refused + [Acquire(session, r)]);
            if was.holder.Free? && Transferable(GuardReads(Copy(was, session), was.row.status))
            then now == Started(u, was, session, r) else now == was
  {
    StepsAppend(u, s, before + refused, [Acquire(session, r)]);
    StepsAppend(u, s, before, refused);
    RefusedNoTrace(u, Steps(u, s, before), refused);
    OneStep(u, Steps(u, s, before), Acquire(session, r));
  }
}
