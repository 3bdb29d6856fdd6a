/** Statuses, rows and the outside world of a warm transfer. */
module TransferModel {
  import opened Seqs

  datatype CallStatus =
    | Created | Queued | Dialing | Ringing | InProgress | NeedsTransfer | Transferring | ManagerBriefing
    | ConnectedToManager | Completed | Failed | Stopped

  predicate Terminal(s: CallStatus) {
    s.Completed? || s.Failed? || s.Stopped?
  }

  predicate InTransfer(s: CallStatus) {
    s.Transferring? || s.ManagerBriefing? || s.ConnectedToManager?
  }

  /** The guard of a transfer request. */
  predicate Transferable(s: CallStatus) {
    !Terminal(s) && !InTransfer(s)
  }

  /** The documented status graph. */
  predicate Edge(from: CallStatus, to: CallStatus) {
    match from
    case Created => to.Queued? || to.InProgress? || to.Failed? || to.Stopped?
    case Queued => to.Dialing? || to.Ringing? || to.InProgress? || to.Failed? || to.Stopped?
    case Dialing => to.Ringing? || to.InProgress? || to.Failed? || to.Stopped?
    case Ringing => to.InProgress? || to.Failed? || to.Stopped?
    case InProgress => to.NeedsTransfer? || to.Completed? || to.Failed? || to.Stopped?
    case NeedsTransfer => to.Transferring? || to.Completed? || to.Failed? || to.Stopped?
    case Transferring => to.ManagerBriefing? || to.Failed? || to.Stopped?
    case ManagerBriefing => to.ConnectedToManager? || to.Failed? || to.Stopped?
    case ConnectedToManager => to.Completed? || to.Failed? || to.Stopped?
    case _ => false
  }

  datatype TransferStatus =
    | Initiated | CallingManager | Briefing | Connected | FailedNoAnswer | FailedAllUnavailable | CallerDropped
    | BridgeFailed | TimedOut

  type Id = nat

  datatype Manager = Manager(
    id: Id,
    department: Option<string>,
    priority: int,
    createdAt: int,
    isActive: bool,
    isAvailable: bool)

  datatype Ending = ToCompleted | ToFailed | ToStopped {
    function Status(): (s: CallStatus)
      ensures Terminal(s)
    {
      match this
      case ToCompleted => Completed
      case ToFailed => Failed
      case ToStopped => Stopped
    }
  }

  /** Whether the caller is gone by the end of some wait, and what the call row then says. */
  datatype Caller = OnLine | HungUp(how: Ending)

  datatype Dial = Answered(leg: Option<string>) | NoAnswerInTime | DialError

  datatype Phase = Done | Overran | Broke

  /**
   Everything a run cannot decide itself: one answer per engine call, one caller state per wait, and whether reading
   the call again gives its row or the copy that the database session holds.
   */
  datatype World = World(
    freshReads: bool,
    beforeDial: nat -> Caller,
    dial: nat -> Dial,
    duringDial: nat -> Caller,
    whisper: Phase,
    duringWhisper: Caller,
    bridge: Phase,
    duringBridge: Caller,
    canEndCustomerLeg: bool)

  /** The parts of a call row that a transfer reads but does not write. */
  datatype CallInfo = CallInfo(id: string, telephonyLeg: Option<string>, vapiCallId: Option<string>)

  /** The identifier the customer's leg is bridged by. */
  function CustomerLeg(info: CallInfo): string {
    if Truthy(info.telephonyLeg) then info.telephonyLeg.value
    else if Truthy(info.vapiCallId) then info.vapiCallId.value
    else info.id
  }

  datatype Record = Record(
    status: TransferStatus,
    attemptCount: nat,
    managerId: Option<Id>,
    managerCallId: Option<string>,
    failureStage: Option<string>)

  const NEW_RECORD := Record(Initiated, 0, None, None, None)

  datatype StatusEvent = Wrote(status: CallStatus) | Ended(status: CallStatus)

  datatype LegEvent =
    | LegAnswered(manager: Id, leg: Option<string>)
    | LegBriefed(leg: Option<string>)
    | LegBridged(leg: Option<string>, customer: string)
    | LegHungUp(id: string)

  /** What a run has done so far; `status` is what the row says and `copy` what the session's copy of it says. */
  datatype Run = Run(
    status: CallStatus,
    copy: CallStatus,
    callManager: Option<Id>,
    record: Record,
    selected: seq<Id>,
    marked: seq<Id>,
    legs: seq<LegEvent>,
    statuses: seq<StatusEvent>,
    customerHangUps: seq<string>)

  datatype Outcome = Success | CallerDroppedError | TransferTimeoutError | TransferError
}
