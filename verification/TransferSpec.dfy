/** What one transfer run does, as a function of the candidates and the outside world. */
module TransferSpec {
  import opened Seqs
  import opened TransferModel

  /** The session keeps what it wrote. */
  function Write(r: Run, s: CallStatus): Run {
    r.(status := s, copy := s, statuses := r.statuses + [Wrote(s)])
  }

  /** Reading the call again finds it ended. */
  predicate Gone(w: World, r: Run) {
    Terminal(if w.freshReads then r.status else r.copy)
  }

  /** The caller may leave during a wait; a call that has ended stays as it is. */
  function Wait(r: Run, c: Caller): Run {
    if c.HungUp? && !Terminal(r.status)
    then r.(status := c.how.Status(), statuses := r.statuses + [Ended(c.how.Status())])
    else r
  }

  function EndManagerLeg(r: Run, leg: Option<string>): Run {
    if Truthy(leg) then r.(legs := r.legs + [LegHungUp(leg.value)]) else r
  }

  function EndCustomerLeg(w: World, info: CallInfo, r: Run): Run {
    if Truthy(info.telephonyLeg) && w.canEndCustomerLeg
    then r.(customerHangUps := r.customerHangUps + [info.telephonyLeg.value])
    else r
  }

  /** A failure that stops the call. */
  function Fail(w: World, info: CallInfo, r: Run, status: TransferStatus, stage: string): Run {
    var r := r.(record := r.record.(status := status, failureStage := Some(stage)));
    Write(EndCustomerLeg(w, info, r), Stopped)
  }

  /** The caller was found to be gone: the call row stays untouched. */
  function MarkDropped(r: Run): Run {
    r.(record := r.record.(status := CallerDropped, failureStage := Some("caller_dropped")))
  }

  /** How the attempt to bridge the two legs ends. */
  function JoinPhase(w: World, info: CallInfo, leg: Option<string>, r: Run): (Run, Outcome) {
    match w.bridge
    case Overran => (Fail(w, info, EndManagerLeg(r, leg), TimedOut, "bridge_timeout"), TransferTimeoutError)
    case Broke => (Fail(w, info, EndManagerLeg(r, leg), BridgeFailed, "bridge"), TransferError)
    case Done => (Write(Joined(info, leg, r), ConnectedToManager), Success)
  }

  function Joined(info: CallInfo, leg: Option<string>, r: Run): Run {
    r.(legs := r.legs + [LegBridged(leg, CustomerLeg(info))], record := r.record.(status := Connected))
  }

  /** The whisper was played: bridge, unless the caller is found to be gone. */
  function BridgePhase(w: World, info: CallInfo, leg: Option<string>, r: Run): (Run, Outcome) {
    if Gone(w, r) then (MarkDropped(EndManagerLeg(r, leg)), CallerDroppedError)
    else JoinPhase(w, info, leg, Wait(r, w.duringBridge))
  }

  /** How the whisper ends. */
  function WhisperPhase(w: World, info: CallInfo, leg: Option<string>, r: Run): (Run, Outcome) {
    match w.whisper
    case Overran => (Fail(w, info, EndManagerLeg(r, leg), TimedOut, "briefing"), TransferTimeoutError)
    case Broke => (Fail(w, info, EndManagerLeg(r, leg), BridgeFailed, "briefing"), TransferError)
    case Done => BridgePhase(w, info, leg, r.(legs := r.legs + [LegBriefed(leg)]))
  }

  function Brief(m: Id, leg: Option<string>, r: Run): Run {
    Write(r.(record := r.record.(status := Briefing, managerCallId := leg), callManager := Some(m)), ManagerBriefing)
  }

  /** A manager answered: brief them, unless the caller is found to be gone. */
  function BriefingPhase(w: World, info: CallInfo, m: Id, leg: Option<string>, r: Run): (Run, Outcome) {
    if Gone(w, r) then (MarkDropped(EndManagerLeg(r, leg)), CallerDroppedError)
    else WhisperPhase(w, info, leg, Wait(Brief(m, leg, r), w.duringWhisper))
  }

  /** Selecting the manager of attempt k and reading the call again. */
  function Select(w: World, m: Id, k: nat, r: Run): Run {
    Wait(r.(record := r.record.(attemptCount := k + 1, managerId := Some(m)), selected := r.selected + [m]),
         w.beforeDial(k))
  }

  /** Attempts k and later. */
  function Attempts(w: World, info: CallInfo, managers: seq<Id>, k: nat, r: Run): (Run, Outcome)
    requires k <= |managers|
    decreases |managers| - k
  {
    if k == |managers| then
      (Fail(w, info, r, FailedNoAnswer, "dial"), TransferError)
    else
      var m := managers[k];
      var r := Select(w, m, k, r);
      if Gone(w, r) then
        (MarkDropped(r), CallerDroppedError)
      else
        var r := Wait(r, w.duringDial(k));
        match w.dial(k)
        case Answered(leg) => BriefingPhase(w, info, m, leg, r.(legs := r.legs + [LegAnswered(m, leg)]))
        case NoAnswerInTime => Attempts(w, info, managers, k + 1, r.(marked := r.marked + [m]))
        case DialError => Attempts(w, info, managers, k + 1, r.(marked := r.marked + [m]))
  }

  /** What the guard tests: the session's copy, if it has one, even though the lock has just been taken. */
  function GuardReads(loaded: Option<CallStatus>, status: CallStatus): CallStatus {
    if loaded.Some? then loaded.value else status
  }

  /** The run once the guard is passed and the managers are known. */
  function Begin(status: CallStatus, callManager: Option<Id>): Run {
    var r := Run(status, status, callManager, NEW_RECORD, [], [], [], [], []);
    var r := Write(Write(r, NeedsTransfer), Transferring);
    r.(record := r.record.(status := CallingManager))
  }

  function Transfer(w: World, info: CallInfo, managers: seq<Id>, status: CallStatus, callManager: Option<Id>)
    : (Run, Outcome)
  {
    Attempts(w, info, managers, 0, Begin(status, callManager))
  }

  // ---- Candidates ----

  predicate Eligible(m: Manager, department: Option<string>) {
    m.isActive && m.isAvailable && (department.Some? ==> m.department == department)
  }

  function Filter(table: seq<Manager>, department: Option<string>): seq<Manager> {
    if table == [] then []
    else (if Eligible(table[0], department) then [table[0]] else []) + Filter(table[1..], department)
  }

  /** Lower priority numbers first, then older rows. */
  predicate Precedes(a: Manager, b: Manager) {
    a.priority < b.priority || (a.priority == b.priority && a.createdAt <= b.createdAt)
  }

  function Insert(m: Manager, sorted: seq<Manager>): seq<Manager> {
    if sorted == [] || Precedes(m, sorted[0]) then [m] + sorted else [sorted[0]] + Insert(m, sorted[1..])
  }

  function SortByPriority(managers: seq<Manager>): seq<Manager> {
    if managers == [] then [] else Insert(managers[0], SortByPriority(managers[1..]))
  }

  function FindAvailable(table: seq<Manager>, department: Option<string>): seq<Manager> {
    SortByPriority(Filter(table, department))
  }

  /** The department's managers if it has any, otherwise everyone's. */
  function Candidates(table: seq<Manager>, department: Option<string>): seq<Manager> {
    if department.Some? && FindAvailable(table, department) != [] then FindAvailable(table, department)
    else FindAvailable(table, None)
  }

  /** How long `candidates[:limit or len]` is, for a list of n candidates. */
  function Bound(limit: int, n: nat): (k: nat)
    ensures k <= n
  {
    if limit == 0 || limit >= n then n else if limit > 0 then limit else if n + limit > 0 then n + limit else 0
  }

  function Ids(managers: seq<Manager>): (ids: seq<Id>)
    ensures |ids| == |managers|
  {
    seq(|managers|, i requires 0 <= i < |managers| => managers[i].id)
  }

  function Tried(table: seq<Manager>, department: Option<string>, limit: int): seq<Id> {
    var candidates := Candidates(table, department);
    Ids(candidates[..Bound(limit, |candidates|)])
  }
}
