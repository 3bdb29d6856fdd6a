/** TransferService.initiate_transfer, step by step over the call row and the transfer record it updates. */
module TransferService {
  import opened Seqs
  import opened TransferModel
  import opened TransferSpec

  class CallRow {
    const info: CallInfo
    var status: CallStatus
    var managerId: Option<Id>

    constructor (info: CallInfo, status: CallStatus, managerId: Option<Id>)
      ensures this.info == info && this.status == status && this.managerId == managerId
    {
      this.info, this.status, this.managerId := info, status, managerId;
    }
  }

  class TransferRecord {
    var status: TransferStatus
    var attemptCount: nat
    var managerId: Option<Id>
    var managerCallId: Option<string>
    var failureStage: Option<string>

    function Value(): Record
      reads this
    {
      Record(status, attemptCount, managerId, managerCallId, failureStage)
    }

    constructor ()
      ensures Value() == NEW_RECORD
    {
      status, attemptCount, managerId, managerCallId, failureStage := Initiated, 0, None, None, None;
    }
  }

  datatype Result =
    | Finished(outcome: Outcome)
    | NotFoundError
    | InvalidCallStateError
    | NoManagerAvailableError

  class TransferService {
    const world: World
    const managers: seq<Manager>
    const maxAttempts: int
    /** The status in the session's copy of the call. */
    var copy: CallStatus
    /** What the current run asked of the engine and wrote to the call row. */
    ghost var selected: seq<Id>
    ghost var marked: seq<Id>
    ghost var legs: seq<LegEvent>
    ghost var statuses: seq<StatusEvent>
    ghost var customerHangUps: seq<string>

    constructor (world: World, managers: seq<Manager>, maxAttempts: int)
      ensures this.world == world && this.managers == managers && this.maxAttempts == maxAttempts
    {
      this.world, this.managers, this.maxAttempts := world, managers, maxAttempts;
      copy := Created;
      selected, marked, legs, statuses, customerHangUps := [], [], [], [], [];
    }

    ghost function Progress(call: CallRow, record: TransferRecord): Run
      reads this, call, record
    {
      Run(call.status, copy, call.managerId, record.Value(), selected, marked, legs, statuses, customerHangUps)
    }

    /** Writing refreshes the copy. */
    method SaveStatus(call: CallRow, record: TransferRecord, status: CallStatus)
      modifies this`copy, this`statuses, call`status
      ensures Progress(call, record) == Write(old(Progress(call, record)), status)
    {
      call.status, copy := status, status;
      statuses := statuses + [Wrote(status)];
    }

    method CallIsTerminal(call: CallRow, ghost record: TransferRecord) returns (gone: bool)
      ensures gone == Gone(world, Progress(call, record))
    {
      gone := Terminal(if world.freshReads then call.status else copy);
    }

    /** While the service waits, the caller may hang up and the call row be updated by someone else. */
    method Await(call: CallRow, record: TransferRecord, caller: Caller)
      modifies this`statuses, call`status
      ensures Progress(call, record) == Wait(old(Progress(call, record)), caller)
    {
      if caller.HungUp? && !Terminal(call.status) {
        call.status := caller.how.Status();
        statuses := statuses + [Ended(caller.how.Status())];
      }
    }

    method SafeTerminateManagerCall(call: CallRow, record: TransferRecord, leg: Option<string>)
      modifies this`legs
      ensures Progress(call, record) == EndManagerLeg(old(Progress(call, record)), leg)
    {
      if leg.Some? && leg.value != "" {
        legs := legs + [LegHungUp(leg.value)];
      }
    }

    method SafeTerminateCustomerLeg(call: CallRow, record: TransferRecord)
      modifies this`customerHangUps
      ensures Progress(call, record) == EndCustomerLeg(world, call.info, old(Progress(call, record)))
    {
      if Truthy(call.info.telephonyLeg) && world.canEndCustomerLeg {
        customerHangUps := customerHangUps + [call.info.telephonyLeg.value];
      }
    }

    method MarkCallerDropped(call: CallRow, record: TransferRecord)
      modifies record`status, record`failureStage
      ensures Progress(call, record) == MarkDropped(old(Progress(call, record)))
    {
      record.status, record.failureStage := CallerDropped, Some("caller_dropped");
    }

    method StopCall(call: CallRow, record: TransferRecord, status: TransferStatus, stage: string)
      modifies this`copy, this`statuses, this`customerHangUps, call`status, record`status, record`failureStage
      ensures Progress(call, record) == Fail(world, call.info, old(Progress(call, record)), status, stage)
    {
      record.status, record.failureStage := status, Some(stage);
      SafeTerminateCustomerLeg(call, record);
      SaveStatus(call, record, Stopped);
    }

    method BridgeCalls(call: CallRow, record: TransferRecord, leg: Option<string>) returns (outcome: Outcome)
      modifies this, call, record
      ensures (Progress(call, record), outcome) == BridgePhase(world, call.info, leg, old(Progress(call, record)))
    {
      var gone := CallIsTerminal(call, record);
      if gone {
        SafeTerminateManagerCall(call, record, leg);
        MarkCallerDropped(call, record);
        return CallerDroppedError;
      }
      Await(call, record, world.duringBridge);
      match world.bridge {
        case Overran =>
          SafeTerminateManagerCall(call, record, leg);
          StopCall(call, record, TimedOut, "bridge_timeout");
          outcome := TransferTimeoutError;
        case Broke =>
          SafeTerminateManagerCall(call, record, leg);
          StopCall(call, record, BridgeFailed, "bridge");
          outcome := TransferError;
        case Done =>
          legs := legs + [LegBridged(leg, CustomerLeg(call.info))];
          record.status := Connected;
          SaveStatus(call, record, ConnectedToManager);
          outcome := Success;
      }
    }

    method PlayWhisper(call: CallRow, record: TransferRecord, leg: Option<string>) returns (outcome: Outcome)
      modifies this, call, record
      ensures (Progress(call, record), outcome) == WhisperPhase(world, call.info, leg, old(Progress(call, record)))
    {
      match world.whisper {
        case Overran =>
          SafeTerminateManagerCall(call, record, leg);
          StopCall(call, record, TimedOut, "briefing");
          outcome := TransferTimeoutError;
        case Broke =>
          SafeTerminateManagerCall(call, record, leg);
          StopCall(call, record, BridgeFailed, "briefing");
          outcome := TransferError;
        case Done =>
          legs := legs + [LegBriefed(leg)];
          outcome := BridgeCalls(call, record, leg);
      }
    }

    method BriefManager(call: CallRow, record: TransferRecord, m: Id, leg: Option<string>) returns (outcome: Outcome)
      modifies this, call, record
      ensures (Progress(call, record), outcome) == BriefingPhase(world, call.info, m, leg, old(Progress(call, record)))
    {
      var gone := CallIsTerminal(call, record);
      if gone {
        SafeTerminateManagerCall(call, record, leg);
        MarkCallerDropped(call, record);
        return CallerDroppedError;
      }
      record.managerCallId := leg;
      record.status := Briefing;
      call.managerId := Some(m);
      SaveStatus(call, record, ManagerBriefing);
      Await(call, record, world.duringWhisper);
      outcome := PlayWhisper(call, record, leg);
    }

    method SelectManager(call: CallRow, record: TransferRecord, m: Id, k: nat)
      modifies this, call, record
      ensures Progress(call, record) == Select(world, m, k, old(Progress(call, record)))
    {
      record.attemptCount := k + 1;
      record.managerId := Some(m);
      selected := selected + [m];
      Await(call, record, world.beforeDial(k));
    }

    /** Dials the managers in order until one answers, the caller is gone or the list is exhausted. */
    method TryManagers(call: CallRow, record: TransferRecord, tried: seq<Id>) returns (outcome: Outcome)
      modifies this, call, record
      ensures (Progress(call, record), outcome) == Attempts(world, call.info, tried, 0, old(Progress(call, record)))
    {
      var k := 0;
      while k < |tried|
        invariant k <= |tried|
        invariant Attempts(world, call.info, tried, 0, old(Progress(call, record)))
                  == Attempts(world, call.info, tried, k, Progress(call, record))
      {
        var m := tried[k];
        SelectManager(call, record, m, k);
        var gone := CallIsTerminal(call, record);
        if gone {
          MarkCallerDropped(call, record);
          return CallerDroppedError;
        }
        Await(call, record, world.duringDial(k));
        match world.dial(k) {
          case Answered(leg) =>
            legs := legs + [LegAnswered(m, leg)];
            outcome := BriefManager(call, record, m, leg);
            return;
          case NoAnswerInTime =>
            marked := marked + [m];
          case DialError =>
            marked := marked + [m];
        }
        k := k + 1;
      }
      StopCall(call, record, FailedNoAnswer, "dial");
      outcome := TransferError;
    }

    /** `loaded` is the status in the copy that the session loaded before it took the lock, if it did. */
    method InitiateTransfer(call: CallRow?, department: Option<string>, loaded: Option<CallStatus>)
      returns (result: Result, record: TransferRecord?)
      modifies this, call
      ensures call == null ==> result == NotFoundError
      ensures call != null && !Transferable(GuardReads(loaded, old(call.status))) ==> result == InvalidCallStateError
      ensures call != null && Transferable(GuardReads(loaded, old(call.status))) ==>
                if Candidates(managers, department) == [] then result == NoManagerAvailableError
                else
                  && record != null && fresh(record) && result.Finished?
                  && (Progress(call, record), result.outcome)
                     == Transfer(world, call.info, Tried(managers, department, maxAttempts),
                                 old(call.status), old(call.managerId))
      ensures !result.Finished? ==> record == null && unchanged(this) && (call != null ==> unchanged(call))
    {
      record := null;
      if call == null {
        return NotFoundError, null;
      }
      var status := if loaded.Some? then loaded.value else call.status;
      if Terminal(status) || InTransfer(status) {
        return InvalidCallStateError, null;
      }
      var candidates := Candidates(managers, department);
      if candidates == [] {
        return NoManagerAvailableError, null;
      }
      selected, marked, legs, statuses, customerHangUps := [], [], [], [], [];
      record := new TransferRecord();
      SaveStatus(call, record, NeedsTransfer);
      SaveStatus(call, record, Transferring);
      record.status := CallingManager;
      var outcome := TryManagers(call, record, Tried(managers, department, maxAttempts));
      result := Finished(outcome);
    }
  }
}
