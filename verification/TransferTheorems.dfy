/** What holds of every transfer run, whatever the engine and the caller do. */
module TransferTheorems {
  import opened Seqs
  import opened TransferModel
  import opened TransferSpec

  // ---- Manager legs ----

  function HangUpOf(leg: Option<string>): seq<LegEvent> {
    if Truthy(leg) then [LegHungUp(leg.value)] else []
  }

  /** The customer is bridged by the telephony leg if it is known, else by the Vapi call, else by the call itself. */
  predicate BridgedTo(info: CallInfo, customer: string) {
    match (info.telephonyLeg, info.vapiCallId)
    case (Some(leg), vapi) =>
      if leg != "" then customer == leg
      else if vapi.Some? && vapi.value != "" then customer == vapi.value else customer == info.id
    case (None, Some(vapi)) => customer == if vapi != "" then vapi else info.id
    case (None, None) => customer == info.id
  }

  /**
   The whole history of manager legs: at most one leg ever answers. It is bridged, after its briefing, on
   success; otherwise it is hung up, once, if it has an identifier at all.
   */
  ghost predicate LegStory(legs: seq<LegEvent>, outcome: Outcome, info: CallInfo, r: Run) {
    if legs == [] then
      !outcome.Success?
    else
      && legs[0].LegAnswered?
      && r.record.managerId == Some(legs[0].manager)
      && var leg := legs[0].leg;
         if outcome.Success? then
           && |legs| == 3 && legs[1] == LegBriefed(leg)
           && legs[2].LegBridged? && legs[2].leg == leg && BridgedTo(info, legs[2].customer)
           && r.callManager == r.record.managerId && r.record.managerCallId == leg
         else
           legs[1..] == HangUpOf(leg) || legs[1..] == [LegBriefed(leg)] + HangUpOf(leg)
  }

  lemma JoinLegs(w: World, info: CallInfo, m: Id, leg: Option<string>, r: Run)
    requires r.legs == [LegAnswered(m, leg), LegBriefed(leg)]
    requires r.record.managerId == r.callManager == Some(m) && r.record.managerCallId == leg
    ensures var (end, outcome) := JoinPhase(w, info, leg, r); LegStory(end.legs, outcome, info, end)
  {
  }

  lemma BridgeLegs(w: World, info: CallInfo, m: Id, leg: Option<string>, r: Run)
    requires r.legs == [LegAnswered(m, leg), LegBriefed(leg)]
    requires r.record.managerId == r.callManager == Some(m) && r.record.managerCallId == leg
    ensures var (end, outcome) := BridgePhase(w, info, leg, r); LegStory(end.legs, outcome, info, end)
  {
    if !Gone(w, r) {
      JoinLegs(w, info, m, leg, Wait(r, w.duringBridge));
    }
  }

  lemma WhisperLegs(w: World, info: CallInfo, m: Id, leg: Option<string>, r: Run)
    requires r.legs == [LegAnswered(m, leg)]
    requires r.record.managerId == r.callManager == Some(m) && r.record.managerCallId == leg
    ensures var (end, outcome) := WhisperPhase(w, info, leg, r); LegStory(end.legs, outcome, info, end)
  {
    if w.whisper.Done? {
      BridgeLegs(w, info, m, leg, r.(legs := r.legs + [LegBriefed(leg)]));
    }
  }

  lemma BriefingLegs(w: World, info: CallInfo, m: Id, leg: Option<string>, r: Run)
    requires r.legs == [LegAnswered(m, leg)] && r.record.managerId == Some(m)
    ensures var (end, outcome) := BriefingPhase(w, info, m, leg, r); LegStory(end.legs, outcome, info, end)
  {
    if !Gone(w, r) {
      WhisperLegs(w, info, m, leg, Wait(Brief(m, leg, r), w.duringWhisper));
    }
  }

  lemma {:induction false} AttemptLegs(w: World, info: CallInfo, managers: seq<Id>, k: nat, r: Run)
    requires k <= |managers| && r.legs == []
    ensures var (end, outcome) := Attempts(w, info, managers, k, r); LegStory(end.legs, outcome, info, end)
    decreases |managers| - k
  {
    if k < |managers| {
      var m := managers[k];
      var s := Select(w, m, k, r);
      if !Gone(w, s) {
        var t := Wait(s, w.duringDial(k));
        match w.dial(k)
        case Answered(leg) => BriefingLegs(w, info, m, leg, t.(legs := t.legs + [LegAnswered(m, leg)]));
        case NoAnswerInTime => AttemptLegs(w, info, managers, k + 1, t.(marked := t.marked + [m]));
        case DialError => AttemptLegs(w, info, managers, k + 1, t.(marked := t.marked + [m]));
      }
    }
  }

  lemma EveryLegSettled(w: World, info: CallInfo, managers: seq<Id>, status: CallStatus, callManager: Option<Id>)
    ensures var (end, outcome) := Transfer(w, info, managers, status, callManager);
            LegStory(end.legs, outcome, info, end)
  {
    AttemptLegs(w, info, managers, 0, Begin(status, callManager));
  }

  // ---- How a run ends ----

  /** The customer's leg is asked to end when the service stops the call, if it is known and the engine can end it. */
  function CustomerEnded(w: World, info: CallInfo, outcome: Outcome): seq<string> {
    if (outcome.TransferTimeoutError? || outcome.TransferError?) && Truthy(info.telephonyLeg) && w.canEndCustomerLeg
    then [info.telephonyLeg.value] else []
  }

  /** The record and the call row agree on the outcome, and both are final. */
  ghost predicate Paired(w: World, info: CallInfo, end: Run, outcome: Outcome) {
    && end.customerHangUps == CustomerEnded(w, info, outcome)
    && match outcome
    case Success =>
      end.record.status == Connected && end.status == ConnectedToManager && end.record.failureStage == None
    case CallerDroppedError =>
      && end.record.status == CallerDropped && end.record.failureStage == Some("caller_dropped")
      && Terminal(end.status) && EndedByOthers(end.statuses, end.status)
    case TransferTimeoutError =>
      && end.record.status == TimedOut && end.status == Stopped
      && end.record.failureStage in {Some("briefing"), Some("bridge_timeout")}
    case TransferError =>
      && end.status == Stopped
      && ((end.record.status == FailedNoAnswer && end.record.failureStage == Some("dial"))
          || (end.record.status == BridgeFailed && end.record.failureStage in {Some("briefing"), Some("bridge")}))
  }

  /** The last change of the call row was somebody else's. */
  predicate EndedByOthers(log: seq<StatusEvent>, status: CallStatus) {
    log != [] && log[|log| - 1] == Ended(status)
  }

  /** Terminal statuses are only ever seen in a run when somebody else ended the call. */
  ghost predicate Live(r: Run) {
    && r.record.failureStage == None
    && r.customerHangUps == []
    && !Terminal(r.copy)
    && (Terminal(r.status) ==> EndedByOthers(r.statuses, r.status))
  }

  lemma BridgePaired(w: World, info: CallInfo, leg: Option<string>, r: Run)
    requires Live(r)
    ensures var (end, outcome) := BridgePhase(w, info, leg, r); Paired(w, info, end, outcome)
  {
  }

  lemma BriefingPaired(w: World, info: CallInfo, m: Id, leg: Option<string>, r: Run)
    requires Live(r)
    ensures var (end, outcome) := BriefingPhase(w, info, m, leg, r); Paired(w, info, end, outcome)
  {
    if !Gone(w, r) && w.whisper.Done? {
      var t := Wait(Brief(m, leg, r), w.duringWhisper);
      BridgePaired(w, info, leg, t.(legs := t.legs + [LegBriefed(leg)]));
    }
  }

  lemma {:induction false} AttemptsPaired(w: World, info: CallInfo, managers: seq<Id>, k: nat, r: Run)
    requires k <= |managers| && Live(r)
    ensures var (end, outcome) := Attempts(w, info, managers, k, r); Paired(w, info, end, outcome)
    decreases |managers| - k
  {
    if k < |managers| {
      var m := managers[k];
      var s := Select(w, m, k, r);
      if !Gone(w, s) {
        var t := Wait(s, w.duringDial(k));
        match w.dial(k)
        case Answered(leg) => BriefingPaired(w, info, m, leg, t.(legs := t.legs + [LegAnswered(m, leg)]));
        case NoAnswerInTime => AttemptsPaired(w, info, managers, k + 1, t.(marked := t.marked + [m]));
        case DialError => AttemptsPaired(w, info, managers, k + 1, t.(marked := t.marked + [m]));
      }
    }
  }

  /** Every exit leaves a final record that matches the call; afterwards no further transfer can pass the guard. */
  lemma EveryExitPaired(w: World, info: CallInfo, managers: seq<Id>, status: CallStatus, callManager: Option<Id>)
    ensures var (end, outcome) := Transfer(w, info, managers, status, callManager);
            Paired(w, info, end, outcome) && !Transferable(end.status) && end.record.status != FailedAllUnavailable
  {
    AttemptsPaired(w, info, managers, 0, Begin(status, callManager));
  }

  // ---- The status graph ----

  function StatusAfter(start: CallStatus, log: seq<StatusEvent>): CallStatus {
    if log == [] then start else log[|log| - 1].status
  }

  /** Every status the service wrote was one edge away from what the row said then. */
  predicate FollowsGraph(start: CallStatus, log: seq<StatusEvent>) {
    log == [] ||
    var before, last := log[..|log| - 1], log[|log| - 1];
    FollowsGraph(start, before) && (last.Wrote? ==> Edge(StatusAfter(start, before), last.status))
  }

  lemma FollowsGraphSnoc(start: CallStatus, log: seq<StatusEvent>, e: StatusEvent)
    ensures FollowsGraph(start, log + [e])
            <==> FollowsGraph(start, log) && (e.Wrote? ==> Edge(StatusAfter(start, log), e.status))
    ensures StatusAfter(start, log + [e]) == e.status
  {
    assert (log + [e])[..|log|] == log;
  }

  /** A run whose log explains its status. */
  ghost predicate Tracks(start: CallStatus, r: Run) {
    r.status == StatusAfter(start, r.statuses)
  }

  lemma Written(start: CallStatus, r: Run, s: CallStatus)
    requires Tracks(start, r)
    ensures Tracks(start, Write(r, s))
    ensures FollowsGraph(start, Write(r, s).statuses) <==> FollowsGraph(start, r.statuses) && Edge(r.status, s)
  {
    FollowsGraphSnoc(start, r.statuses, Wrote(s));
  }

  lemma Waited(start: CallStatus, r: Run, c: Caller)
    requires Tracks(start, r)
    ensures Tracks(start, Wait(r, c))
    ensures FollowsGraph(start, Wait(r, c).statuses) <==> FollowsGraph(start, r.statuses)
    ensures c.HungUp? || Terminal(r.status) <==> Terminal(Wait(r, c).status)
    ensures !c.HungUp? ==> Wait(r, c).status == r.status
  {
    if c.HungUp? {
      FollowsGraphSnoc(start, r.statuses, Ended(c.how.Status()));
    }
  }

  /**
   The caller of a call that has not ended leaves without the service finding out before it writes to the row again.
   A copy never shows it; reading the row does, unless no reading follows.
   */
  predicate LeavesUnseen(w: World, n: nat, k: nat)
    decreases n - k
  {
    k < n &&
    if w.beforeDial(k).HungUp? then !w.freshReads
    else
      match w.dial(k)
      case Answered(_) => if w.duringDial(k).HungUp? then !w.freshReads else LeavesAfterAnswer(w)
      case _ => if w.duringDial(k).HungUp? then !w.freshReads || k + 1 == n else LeavesUnseen(w, n, k + 1)
  }

  /** The same from the moment a manager has answered a caller still there. */
  predicate LeavesAfterAnswer(w: World) {
    if w.duringWhisper.HungUp? then !w.freshReads || !w.whisper.Done?
    else w.whisper.Done? && w.duringBridge.HungUp?
  }

  /** The service wrote `s` last, and since then nothing but the end of the call can have happened to the row. */
  ghost predicate At(start: CallStatus, r: Run, s: CallStatus) {
    Tracks(start, r) && r.copy == s && !Terminal(s) && (r.status == s || Terminal(r.status))
  }

  /** The guard lets through exactly the statuses before a transfer; the end of the graph is where no edge leads out. */
  lemma GuardMeaning(s: CallStatus)
    ensures Transferable(s) <==> s in {Created, Queued, Dialing, Ringing, InProgress, NeedsTransfer}
    ensures Terminal(s) <==> forall to :: !Edge(s, to)
    ensures !Terminal(s) ==> Edge(s, Failed) && Edge(s, Stopped)
  {
    assert !Terminal(s) ==> Edge(s, Failed);
  }

  lemma OnlyTerminalStops(s: CallStatus)
    ensures Edge(s, Stopped) <==> !Terminal(s)
  {
  }

  lemma FailGraph(start: CallStatus, w: World, info: CallInfo, r: Run, status: TransferStatus, stage: string)
    requires Tracks(start, r)
    ensures FollowsGraph(start, Fail(w, info, r, status, stage).statuses)
            <==> FollowsGraph(start, r.statuses) && !Terminal(r.status)
  {
    var t := r.(record := r.record.(status := status, failureStage := Some(stage)));
    OnlyTerminalStops(r.status);
    Written(start, EndCustomerLeg(w, info, t), Stopped);
  }

  lemma JoinGraph(start: CallStatus, w: World, info: CallInfo, leg: Option<string>, r: Run)
    requires At(start, r, ManagerBriefing)
    ensures FollowsGraph(start, JoinPhase(w, info, leg, r).0.statuses)
            <==> FollowsGraph(start, r.statuses) && !Terminal(r.status)
  {
    match w.bridge
    case Overran => FailGraph(start, w, info, EndManagerLeg(r, leg), TimedOut, "bridge_timeout");
    case Broke => FailGraph(start, w, info, EndManagerLeg(r, leg), BridgeFailed, "bridge");
    case Done => Written(start, Joined(info, leg, r), ConnectedToManager);
  }

  lemma BridgeGraph(start: CallStatus, w: World, info: CallInfo, leg: Option<string>, r: Run)
    requires At(start, r, ManagerBriefing)
    ensures FollowsGraph(start, BridgePhase(w, info, leg, r).0.statuses)
            <==> FollowsGraph(start, r.statuses) && (Gone(w, r) || (!Terminal(r.status) && w.duringBridge.OnLine?))
  {
    if !Gone(w, r) {
      Waited(start, r, w.duringBridge);
      JoinGraph(start, w, info, leg, Wait(r, w.duringBridge));
    }
  }

  lemma WhisperGraph(start: CallStatus, w: World, info: CallInfo, leg: Option<string>, r: Run)
    requires At(start, r, ManagerBriefing)
    ensures FollowsGraph(start, WhisperPhase(w, info, leg, r).0.statuses)
            <==> FollowsGraph(start, r.statuses)
                 && (if w.whisper.Done? then Gone(w, r) || (!Terminal(r.status) && w.duringBridge.OnLine?)
                     else !Terminal(r.status))
  {
    match w.whisper
    case Overran => FailGraph(start, w, info, EndManagerLeg(r, leg), TimedOut, "briefing");
    case Broke => FailGraph(start, w, info, EndManagerLeg(r, leg), BridgeFailed, "briefing");
    case Done => BridgeGraph(start, w, info, leg, r.(legs := r.legs + [LegBriefed(leg)]));
  }

  lemma BriefingGraph(start: CallStatus, w: World, info: CallInfo, m: Id, leg: Option<string>, r: Run)
    requires At(start, r, Transferring)
    ensures FollowsGraph(start, BriefingPhase(w, info, m, leg, r).0.statuses)
            <==> FollowsGraph(start, r.statuses) && (Gone(w, r) || (!Terminal(r.status) && !LeavesAfterAnswer(w)))
  {
    if !Gone(w, r) {
      BriefedGraph(start, m, leg, r);
      Waited(start, Brief(m, leg, r), w.duringWhisper);
      WhisperGraph(start, w, info, leg, Wait(Brief(m, leg, r), w.duringWhisper));
    }
  }

  lemma BriefedGraph(start: CallStatus, m: Id, leg: Option<string>, r: Run)
    requires At(start, r, Transferring)
    ensures At(start, Brief(m, leg, r), ManagerBriefing) && Brief(m, leg, r).status == ManagerBriefing
    ensures FollowsGraph(start, Brief(m, leg, r).statuses)
            <==> FollowsGraph(start, r.statuses) && !Terminal(r.status)
  {
    Written(start, r.(record := r.record.(status := Briefing, managerCallId := leg), callManager := Some(m)),
            ManagerBriefing);
  }

  lemma {:induction false} AttemptsGraph(
    start: CallStatus, w: World, info: CallInfo, managers: seq<Id>, k: nat, r: Run)
    requires k <= |managers| && At(start, r, Transferring)
    ensures var end := Attempts(w, info, managers, k, r).0;
            FollowsGraph(start, end.statuses)
            <==> FollowsGraph(start, r.statuses)
                 && (if Terminal(r.status) then w.freshReads && k < |managers| else !LeavesUnseen(w, |managers|, k))
    decreases |managers| - k, 1
  {
    if k == |managers| {
      FailGraph(start, w, info, r, FailedNoAnswer, "dial");
    } else {
      var m := managers[k];
      var picked := r.(record := r.record.(attemptCount := k + 1, managerId := Some(m)), selected := r.selected + [m]);
      Waited(start, picked, w.beforeDial(k));
      var s := Select(w, m, k, r);
      if !Gone(w, s) {
        Waited(start, s, w.duringDial(k));
        DialedGraph(start, w, info, managers, k, Wait(s, w.duringDial(k)));
      }
    }
  }

  /** What follows the dial of attempt k. */
  function AfterDial(w: World, info: CallInfo, managers: seq<Id>, k: nat, t: Run): (Run, Outcome)
    requires k < |managers|
  {
    match w.dial(k)
    case Answered(leg) => BriefingPhase(w, info, managers[k], leg, t.(legs := t.legs + [LegAnswered(managers[k], leg)]))
    case _ => Attempts(w, info, managers, k + 1, t.(marked := t.marked + [managers[k]]))
  }

  lemma {:induction false} DialedGraph(
    start: CallStatus, w: World, info: CallInfo, managers: seq<Id>, k: nat, t: Run)
    requires k < |managers| && At(start, t, Transferring)
    ensures FollowsGraph(start, AfterDial(w, info, managers, k, t).0.statuses)
            <==> FollowsGraph(start, t.statuses)
                 && (if w.dial(k).Answered? then Gone(w, t) || (!Terminal(t.status) && !LeavesAfterAnswer(w))
                     else if Terminal(t.status) then w.freshReads && k + 1 < |managers|
                     else !LeavesUnseen(w, |managers|, k + 1))
    decreases |managers| - k, 0
  {
    var m := managers[k];
    if w.dial(k).Answered? {
      BriefingGraph(start, w, info, m, w.dial(k).leg, t.(legs := t.legs + [LegAnswered(m, w.dial(k).leg)]));
    } else {
      AttemptsGraph(start, w, info, managers, k + 1, t.(marked := t.marked + [m]));
    }
  }

  lemma BeginGraph(status: CallStatus, callManager: Option<Id>)
    requires Transferable(status)
    ensures var r := Begin(status, callManager);
            At(status, r, Transferring) && r.status == Transferring
              && (FollowsGraph(status, r.statuses) <==> status == InProgress)
  {
    var r := Run(status, status, callManager, NEW_RECORD, [], [], [], [], []);
    Written(status, r, NeedsTransfer);
    Written(status, Write(r, NeedsTransfer), Transferring);
  }

  /** Writes follow the status graph exactly when the call was in progress and its caller did not leave unseen. */
  lemma WritesFollowGraphExactly(
    w: World, info: CallInfo, managers: seq<Id>, status: CallStatus, callManager: Option<Id>)
    requires Transferable(status)
    ensures var end := Transfer(w, info, managers, status, callManager).0;
            FollowsGraph(status, end.statuses) <==> status == InProgress && !LeavesUnseen(w, |managers|, 0)
  {
    BeginGraph(status, callManager);
    AttemptsGraph(status, w, info, managers, 0, Begin(status, callManager));
  }

  /** A call in progress whose caller leaves during the only dial, which fails: the ended call is written to. */
  lemma UnseenDeparture(info: CallInfo, m: Id, callManager: Option<Id>) returns (w: World)
    ensures LeavesUnseen(w, 1, 0)
    ensures var end := Transfer(w, info, [m], InProgress, callManager).0;
            && end.statuses == [Wrote(NeedsTransfer), Wrote(Transferring), Ended(Completed), Wrote(Stopped)]
            && !FollowsGraph(InProgress, end.statuses)
  {
    w := World(true, _ => OnLine, _ => DialError, _ => HungUp(ToCompleted), Done, OnLine, Done, OnLine, true);
    var r := Begin(InProgress, callManager);
    var t := Wait(Select(w, m, 0, r), w.duringDial(0));
    assert Attempts(w, info, [m], 0, r) == Attempts(w, info, [m], 1, t.(marked := t.marked + [m]));
    WritesFollowGraphExactly(w, info, [m], InProgress, callManager);
  }

  /** Nobody but the service changes the row, as under a lock that keeps every other writer out. */
  ghost predicate StaysOnLine(w: World, n: nat) {
    && (forall k :: 0 <= k < n ==> w.beforeDial(k).OnLine? && w.duringDial(k).OnLine?)
    && w.duringWhisper.OnLine? && w.duringBridge.OnLine?
  }

  lemma {:induction false} NobodyLeavesUnseen(w: World, n: nat, k: nat)
    requires StaysOnLine(w, n)
    ensures !LeavesUnseen(w, n, k)
    decreases n - k
  {
    if k < n && !w.dial(k).Answered? {
      NobodyLeavesUnseen(w, n, k + 1);
    }
  }

  /** Then a run from a call in progress follows the graph throughout. */
  lemma AloneFollowsGraph(w: World, info: CallInfo, managers: seq<Id>, callManager: Option<Id>)
    requires StaysOnLine(w, |managers|)
    ensures FollowsGraph(InProgress, Transfer(w, info, managers, InProgress, callManager).0.statuses)
  {
    NobodyLeavesUnseen(w, |managers|, 0);
    WritesFollowGraphExactly(w, info, managers, InProgress, callManager);
  }

  // ---- The service's own writes ----

  /** The last status the service wrote. */
  function LastWritten(start: CallStatus, log: seq<StatusEvent>): CallStatus {
    if log == [] then start
    else if log[|log| - 1].Wrote? then log[|log| - 1].status
    else LastWritten(start, log[..|log| - 1])
  }

  /** What the service wrote, leaving out what others did, is a path of the graph. */
  predicate WritesFormPath(start: CallStatus, log: seq<StatusEvent>) {
    log == [] ||
    var before, last := log[..|log| - 1], log[|log| - 1];
    WritesFormPath(start, before) && (last.Wrote? ==> Edge(LastWritten(start, before), last.status))
  }

  /** The service's own writes so far end with the given status; `good` says whether they are a path. */
  ghost predicate PathTo(start: CallStatus, good: bool, r: Run, last: CallStatus) {
    WritesFormPath(start, r.statuses) == good && LastWritten(start, r.statuses) == last
  }

  lemma PathWrite(start: CallStatus, good: bool, r: Run, last: CallStatus, s: CallStatus)
    requires PathTo(start, good, r, last) && Edge(last, s)
    ensures PathTo(start, good, Write(r, s), s)
  {
    assert Write(r, s).statuses[..|r.statuses|] == r.statuses;
  }

  lemma PathWait(start: CallStatus, good: bool, r: Run, last: CallStatus, c: Caller)
    requires PathTo(start, good, r, last)
    ensures PathTo(start, good, Wait(r, c), last)
  {
    assert c.HungUp? ==> (r.statuses + [Ended(c.how.Status())])[..|r.statuses|] == r.statuses;
  }

  lemma PathFail(start: CallStatus, good: bool, w: World, info: CallInfo, r: Run, last: CallStatus,
                 status: TransferStatus, stage: string)
    requires PathTo(start, good, r, last) && Edge(last, Stopped)
    ensures PathTo(start, good, Fail(w, info, r, status, stage), Stopped)
  {
    PathWrite(start, good,
              EndCustomerLeg(w, info, r.(record := r.record.(status := status, failureStage := Some(stage)))),
              last, Stopped);
  }

  lemma PathJoin(start: CallStatus, good: bool, w: World, info: CallInfo, leg: Option<string>, r: Run)
    requires PathTo(start, good, r, ManagerBriefing)
    ensures WritesFormPath(start, JoinPhase(w, info, leg, r).0.statuses) == good
  {
    match w.bridge
    case Overran => PathFail(start, good, w, info, EndManagerLeg(r, leg), ManagerBriefing, TimedOut, "bridge_timeout");
    case Broke => PathFail(start, good, w, info, EndManagerLeg(r, leg), ManagerBriefing, BridgeFailed, "bridge");
    case Done => PathWrite(start, good, Joined(info, leg, r), ManagerBriefing, ConnectedToManager);
  }

  lemma PathBridge(start: CallStatus, good: bool, w: World, info: CallInfo, leg: Option<string>, r: Run)
    requires PathTo(start, good, r, ManagerBriefing)
    ensures WritesFormPath(start, BridgePhase(w, info, leg, r).0.statuses) == good
  {
    if !Gone(w, r) {
      PathWait(start, good, r, ManagerBriefing, w.duringBridge);
      PathJoin(start, good, w, info, leg, Wait(r, w.duringBridge));
    }
  }

  lemma PathWhisper(start: CallStatus, good: bool, w: World, info: CallInfo, leg: Option<string>, r: Run)
    requires PathTo(start, good, r, ManagerBriefing)
    ensures WritesFormPath(start, WhisperPhase(w, info, leg, r).0.statuses) == good
  {
    match w.whisper
    case Overran => PathFail(start, good, w, info, EndManagerLeg(r, leg), ManagerBriefing, TimedOut, "briefing");
    case Broke => PathFail(start, good, w, info, EndManagerLeg(r, leg), ManagerBriefing, BridgeFailed, "briefing");
    case Done => PathBridge(start, good, w, info, leg, r.(legs := r.legs + [LegBriefed(leg)]));
  }

  lemma PathBriefing(start: CallStatus, good: bool, w: World, info: CallInfo, m: Id, leg: Option<string>, r: Run)
    requires PathTo(start, good, r, Transferring)
    ensures WritesFormPath(start, BriefingPhase(w, info, m, leg, r).0.statuses) == good
  {
    if !Gone(w, r) {
      var briefed := r.(record := r.record.(status := Briefing, managerCallId := leg), callManager := Some(m));
      PathWrite(start, good, briefed, Transferring, ManagerBriefing);
      PathWait(start, good, Brief(m, leg, r), ManagerBriefing, w.duringWhisper);
      PathWhisper(start, good, w, info, leg, Wait(Brief(m, leg, r), w.duringWhisper));
    }
  }

  lemma PathSelect(start: CallStatus, good: bool, w: World, m: Id, k: nat, r: Run)
    requires PathTo(start, good, r, Transferring)
    ensures PathTo(start, good, Select(w, m, k, r), Transferring)
    ensures PathTo(start, good, Wait(Select(w, m, k, r), w.duringDial(k)), Transferring)
  {
    var picked := r.(record := r.record.(attemptCount := k + 1, managerId := Some(m)), selected := r.selected + [m]);
    PathWait(start, good, picked, Transferring, w.beforeDial(k));
    PathWait(start, good, Select(w, m, k, r), Transferring, w.duringDial(k));
  }

  lemma {:induction false} PathAttempts(start: CallStatus, good: bool, w: World, info: CallInfo, managers: seq<Id>,
                                        k: nat, r: Run)
    requires k <= |managers| && PathTo(start, good, r, Transferring)
    ensures WritesFormPath(start, Attempts(w, info, managers, k, r).0.statuses) == good
    decreases |managers| - k
  {
    if k == |managers| {
      PathFail(start, good, w, info, r, Transferring, FailedNoAnswer, "dial");
    } else {
      var m := managers[k];
      PathSelect(start, good, w, m, k, r);
      if !Gone(w, Select(w, m, k, r)) {
        var t := Wait(Select(w, m, k, r), w.duringDial(k));
        match w.dial(k)
        case Answered(leg) => PathBriefing(start, good, w, info, m, leg, t.(legs := t.legs + [LegAnswered(m, leg)]));
        case _ => PathAttempts(start, good, w, info, managers, k + 1, t.(marked := t.marked + [m]));
      }
    }
  }

  lemma FirstWriteDecides(start: CallStatus)
    requires Transferable(start)
    ensures var log := [Wrote(NeedsTransfer), Wrote(Transferring)];
            (WritesFormPath(start, log) <==> start == InProgress) && LastWritten(start, log) == Transferring
  {
    var first := [Wrote(NeedsTransfer)];
    assert first[..0] == [] && (first + [Wrote(Transferring)])[..1] == first;
    assert WritesFormPath(start, first) <==> start == InProgress;
    assert first + [Wrote(Transferring)] == [Wrote(NeedsTransfer), Wrote(Transferring)];
  }

  /**
   Whatever the caller and other writers do, the service's own writes, read in sequence, are a path of the graph
   if and only if the call was in progress.
   */
  lemma OwnWritesFormPath(w: World, info: CallInfo, managers: seq<Id>, status: CallStatus, callManager: Option<Id>)
    requires Transferable(status)
    ensures WritesFormPath(status, Transfer(w, info, managers, status, callManager).0.statuses)
            <==> status == InProgress
  {
    var log := Begin(status, callManager).statuses;
    assert log == [Wrote(NeedsTransfer), Wrote(Transferring)];
    FirstWriteDecides(status);
    PathAttempts(status, status == InProgress, w, info, managers, 0, Begin(status, callManager));
  }

  // ---- A session that reads its copy ----

  /** A run without the row's part in it. */
  function Blind(r: Run): Run {
    r.(status := r.copy, statuses := [])
  }

  /** The same world with a caller who stays. */
  function Undisturbed(w: World): World {
    w.(beforeDial := _ => OnLine, duringDial := _ => OnLine, duringWhisper := OnLine, duringBridge := OnLine)
  }

  /** Two runs that differ in the row at most, in sessions that do not look at it. */
  ghost predicate Alike(w: World, r: Run, q: Run) {
    !w.freshReads && Blind(r) == Blind(q) && !Terminal(r.copy)
  }

  ghost predicate EndAlike(a: (Run, Outcome), b: (Run, Outcome)) {
    Blind(a.0) == Blind(b.0) && a.1 == b.1 && !a.1.CallerDroppedError?
  }

  lemma JoinAlike(w: World, info: CallInfo, leg: Option<string>, r: Run, q: Run)
    requires Alike(w, r, q)
    ensures EndAlike(JoinPhase(w, info, leg, r), JoinPhase(Undisturbed(w), info, leg, q))
  {
  }

  lemma BridgeAlike(w: World, info: CallInfo, leg: Option<string>, r: Run, q: Run)
    requires Alike(w, r, q)
    ensures EndAlike(BridgePhase(w, info, leg, r), BridgePhase(Undisturbed(w), info, leg, q))
  {
    JoinAlike(w, info, leg, Wait(r, w.duringBridge), q);
  }

  lemma WhisperAlike(w: World, info: CallInfo, leg: Option<string>, r: Run, q: Run)
    requires Alike(w, r, q)
    ensures EndAlike(WhisperPhase(w, info, leg, r), WhisperPhase(Undisturbed(w), info, leg, q))
  {
    if w.whisper.Done? {
      BridgeAlike(w, info, leg, r.(legs := r.legs + [LegBriefed(leg)]), q.(legs := q.legs + [LegBriefed(leg)]));
    }
  }

  lemma BriefingAlike(w: World, info: CallInfo, m: Id, leg: Option<string>, r: Run, q: Run)
    requires Alike(w, r, q)
    ensures EndAlike(BriefingPhase(w, info, m, leg, r), BriefingPhase(Undisturbed(w), info, m, leg, q))
  {
    WhisperAlike(w, info, leg, Wait(Brief(m, leg, r), w.duringWhisper), Brief(m, leg, q));
  }

  lemma SelectAlike(w: World, m: Id, k: nat, r: Run, q: Run)
    requires Alike(w, r, q)
    ensures Alike(w, Select(w, m, k, r), Select(Undisturbed(w), m, k, q))
    ensures Alike(w, Wait(Select(w, m, k, r), w.duringDial(k)), Select(Undisturbed(w), m, k, q))
  {
  }

  lemma {:induction false} AttemptsAlike(w: World, info: CallInfo, managers: seq<Id>, k: nat, r: Run, q: Run)
    requires k <= |managers| && Alike(w, r, q)
    ensures EndAlike(Attempts(w, info, managers, k, r), Attempts(Undisturbed(w), info, managers, k, q))
    decreases |managers| - k
  {
    if k < |managers| {
      var m := managers[k];
      SelectAlike(w, m, k, r, q);
      var t, u := Wait(Select(w, m, k, r), w.duringDial(k)), Select(Undisturbed(w), m, k, q);
      match w.dial(k)
      case Answered(leg) =>
        BriefingAlike(w, info, m, leg, t.(legs := t.legs + [LegAnswered(m, leg)]),
                      u.(legs := u.legs + [LegAnswered(m, leg)]));
      case _ => AttemptsAlike(w, info, managers, k + 1, t.(marked := t.marked + [m]), u.(marked := u.marked + [m]));
    }
  }

  /**
   In a session that reads its copy a run never finds the caller gone: it does, record by record and leg by leg, what
   it would have done had the caller stayed.
   */
  lemma CopyIgnoresCaller(w: World, info: CallInfo, managers: seq<Id>, status: CallStatus, callManager: Option<Id>)
    requires !w.freshReads
    ensures var (end, outcome) := Transfer(w, info, managers, status, callManager);
            var (alone, same) := Transfer(Undisturbed(w), info, managers, status, callManager);
            && outcome == same && !outcome.CallerDroppedError?
            && end.(statuses := []) == alone.(statuses := [])
  {
    var r := Begin(status, callManager);
    AttemptsAlike(w, info, managers, 0, r, r);
    AttemptsPaired(w, info, managers, 0, r);
    AttemptsPaired(Undisturbed(w), info, managers, 0, r);
  }

  // ---- Selection ----

  /** What a run that selected the first managers of the list recorded about them. */
  ghost predicate Selection(managers: seq<Id>, end: Run) {
    var n := end.record.attemptCount;
    && n <= |managers|
    && end.selected == managers[..n]
    && end.record.managerId == (if n == 0 then None else Some(managers[n - 1]))
    && (if end.record.status == FailedNoAnswer then n == |managers| && end.marked == managers
        else n > 0 && end.marked == managers[..n - 1])
  }

  ghost predicate SameSelection(r: Run, end: Run) {
    && end.selected == r.selected && end.marked == r.marked
    && end.record.attemptCount == r.record.attemptCount && end.record.managerId == r.record.managerId
    && end.record.status != FailedNoAnswer
  }

  lemma JoinSelects(w: World, info: CallInfo, leg: Option<string>, r: Run)
    ensures SameSelection(r, JoinPhase(w, info, leg, r).0)
  {
  }

  lemma BridgeSelects(w: World, info: CallInfo, leg: Option<string>, r: Run)
    ensures SameSelection(r, BridgePhase(w, info, leg, r).0)
  {
    JoinSelects(w, info, leg, Wait(r, w.duringBridge));
  }

  /** Nothing in the later phases touches the selection. */
  lemma BriefingSelects(w: World, info: CallInfo, m: Id, leg: Option<string>, r: Run)
    ensures SameSelection(r, BriefingPhase(w, info, m, leg, r).0)
  {
    if !Gone(w, r) && w.whisper.Done? {
      var t := Wait(Brief(m, leg, r), w.duringWhisper);
      BridgeSelects(w, info, leg, t.(legs := t.legs + [LegBriefed(leg)]));
    }
  }

  ghost predicate AllFailedBefore(managers: seq<Id>, k: nat, r: Run) {
    && k <= |managers|
    && r.selected == r.marked == managers[..k]
    && r.record.attemptCount == k
    && r.record.managerId == if k == 0 then None else Some(managers[k - 1])
  }

  ghost predicate JustSelected(managers: seq<Id>, k: nat, r: Run) {
    && k < |managers|
    && r.selected == managers[..k + 1]
    && r.marked == managers[..k]
    && r.record.attemptCount == k + 1
    && r.record.managerId == Some(managers[k])
  }

  lemma SelectNext(w: World, managers: seq<Id>, k: nat, r: Run)
    requires AllFailedBefore(managers, k, r) && k < |managers|
    ensures JustSelected(managers, k, Select(w, managers[k], k, r))
  {
    assert managers[..k] + [managers[k]] == managers[..k + 1];
  }

  lemma MarkSelected(managers: seq<Id>, k: nat, r: Run)
    requires JustSelected(managers, k, r)
    ensures AllFailedBefore(managers, k + 1, r.(marked := r.marked + [managers[k]]))
  {
    assert managers[..k] + [managers[k]] == managers[..k + 1];
  }

  lemma {:induction false} AttemptsSelect(w: World, info: CallInfo, managers: seq<Id>, k: nat, r: Run)
    requires AllFailedBefore(managers, k, r)
    ensures Selection(managers, Attempts(w, info, managers, k, r).0)
    decreases |managers| - k, 1
  {
    if k == |managers| {
      assert managers[..k] == managers;
    } else {
      SelectNext(w, managers, k, r);
      var s := Select(w, managers[k], k, r);
      if !Gone(w, s) {
        DialedSelect(w, info, managers, k, Wait(s, w.duringDial(k)));
      }
    }
  }

  lemma {:induction false} DialedSelect(w: World, info: CallInfo, managers: seq<Id>, k: nat, t: Run)
    requires JustSelected(managers, k, t)
    ensures Selection(managers, AfterDial(w, info, managers, k, t).0)
    decreases |managers| - k, 0
  {
    match w.dial(k)
    case Answered(leg) =>
      BriefingSelects(w, info, managers[k], leg, t.(legs := t.legs + [LegAnswered(managers[k], leg)]));
    case _ =>
      MarkSelected(managers, k, t);
      AttemptsSelect(w, info, managers, k + 1, t.(marked := t.marked + [managers[k]]));
  }

  /**
   The managers a run selects are a prefix of the bounded candidates; those before the last failed and were marked.
   */
  lemma RunSelectsPrefix(w: World, info: CallInfo, managers: seq<Id>, status: CallStatus, callManager: Option<Id>)
    ensures Selection(managers, Transfer(w, info, managers, status, callManager).0)
  {
    assert managers[..0] == [];
    AttemptsSelect(w, info, managers, 0, Begin(status, callManager));
  }

  /** From attempt k on, every dial fails and no attempt finds the caller gone. */
  predicate NobodyAnswers(w: World, n: nat, k: nat)
    decreases n - k
  {
    k >= n ||
    (!w.dial(k).Answered?
     && (w.freshReads ==> w.beforeDial(k).OnLine? && (w.duringDial(k).OnLine? || k + 1 == n))
     && NobodyAnswers(w, n, k + 1))
  }

  lemma {:induction false} NoAnswerFrom(w: World, info: CallInfo, managers: seq<Id>, k: nat, r: Run)
    requires k <= |managers| && !Terminal(r.copy) && (Gone(w, r) ==> k == |managers|)
    ensures Attempts(w, info, managers, k, r).0.record.status == FailedNoAnswer <==> NobodyAnswers(w, |managers|, k)
    decreases |managers| - k
  {
    if k < |managers| {
      var m := managers[k];
      var t := Wait(Select(w, m, k, r), w.duringDial(k));
      if !Gone(w, Select(w, m, k, r)) {
        if w.dial(k).Answered? {
          BriefingSelects(w, info, m, w.dial(k).leg, t.(legs := t.legs + [LegAnswered(m, w.dial(k).leg)]));
        } else if !Gone(w, t) || k + 1 == |managers| {
          NoAnswerFrom(w, info, managers, k + 1, t.(marked := t.marked + [m]));
        }
      }
    }
  }

  /** The transfer fails for want of an answer exactly when the whole bounded list fails to be dialled. */
  lemma NoAnswerExactly(w: World, info: CallInfo, managers: seq<Id>, status: CallStatus, callManager: Option<Id>)
    ensures Transfer(w, info, managers, status, callManager).0.record.status == FailedNoAnswer
            <==> NobodyAnswers(w, |managers|, 0)
  {
    NoAnswerFrom(w, info, managers, 0, Begin(status, callManager));
  }

  // ---- Which way a run ends ----

  /** Attempt k is the first to be answered, and no reading before its answer finds the caller gone. */
  ghost predicate AnswersAt(w: World, n: nat, k: nat) {
    && k < n && w.dial(k).Answered?
    && (forall i :: 0 <= i < k ==> !w.dial(i).Answered?)
    && (w.freshReads ==> forall i :: 0 <= i <= k ==> StillThere(w, i))
  }

  /** The caller has not left before the call is read for attempt i. */
  predicate StillThere(w: World, i: nat) {
    w.beforeDial(i).OnLine? && (i > 0 ==> w.duringDial(i - 1).OnLine?)
  }

  /** Moreover, the reading after the answer does not find the caller gone. */
  ghost predicate BriefsAt(w: World, n: nat, k: nat) {
    AnswersAt(w, n, k) && (w.freshReads ==> w.duringDial(k).OnLine?)
  }

  ghost predicate Briefs(w: World, n: nat) {
    exists k: nat :: BriefsAt(w, n, k)
  }

  /** After the whisper, the reading does not find the caller gone either. */
  ghost predicate Bridges(w: World, n: nat) {
    Briefs(w, n) && w.whisper.Done? && (w.freshReads ==> w.duringWhisper.OnLine?)
  }

  /** Every dial fails, and no reading finds the caller gone. */
  ghost predicate NoneAnswers(w: World, n: nat) {
    && (forall i :: 0 <= i < n ==> !w.dial(i).Answered?)
    && (w.freshReads ==> forall i :: 0 <= i < n ==> StillThere(w, i))
  }

  /** Some reading finds the caller gone: before a dial, after an answer, or after the whisper. */
  ghost predicate FoundGone(w: World, n: nat) {
    w.freshReads &&
    (|| (exists k: nat :: GoneBefore(w, n, k))
     || (exists k: nat ::
           AnswersAt(w, n, k) && (w.duringDial(k).HungUp? || (w.whisper.Done? && w.duringWhisper.HungUp?))))
  }

  ghost predicate GoneBefore(w: World, n: nat, k: nat) {
    k < n && !StillThere(w, k) && forall i :: 0 <= i < k ==> !w.dial(i).Answered?
  }

  /** How the record of a run ends. */
  ghost predicate EndsAs(end: Run, status: TransferStatus, stage: string) {
    end.record.status == status && end.record.failureStage == Some(stage)
  }

  /** The first attempt from k on that is answered, if no reading before finds the caller gone. */
  function FirstAnswer(w: World, n: nat, k: nat): Option<nat>
    decreases n - k
  {
    if k >= n || (w.freshReads && w.beforeDial(k).HungUp?) then None
    else if w.dial(k).Answered? then Some(k)
    else if w.freshReads && w.duringDial(k).HungUp? then None
    else FirstAnswer(w, n, k + 1)
  }

  /** No attempt before k is answered, and no reading before its dial but its own has found the caller gone. */
  ghost predicate QuietUntil(w: World, k: nat) {
    && (forall i :: 0 <= i < k ==> !w.dial(i).Answered?)
    && (w.freshReads ==> (forall i :: 0 <= i < k ==> StillThere(w, i)) && (k > 0 ==> w.duringDial(k - 1).OnLine?))
  }

  lemma {:induction false} FirstAnswerMeaning(w: World, n: nat, k: nat)
    requires k <= n && QuietUntil(w, k)
    ensures var first := FirstAnswer(w, n, k);
            if first.Some? then AnswersAt(w, n, first.value) && forall j: nat :: AnswersAt(w, n, j) ==> j == first.value
            else forall j: nat :: !AnswersAt(w, n, j)
    decreases n - k
  {
    if k < n && !(w.freshReads && w.beforeDial(k).HungUp?) && !w.dial(k).Answered?
       && !(w.freshReads && w.duringDial(k).HungUp?) {
      FirstAnswerMeaning(w, n, k + 1);
    } else if k < n && w.freshReads && w.beforeDial(k).HungUp? {
      forall j: nat ensures !AnswersAt(w, n, j) {
        assert !StillThere(w, k);
      }
    } else if k < n && w.freshReads && !w.dial(k).Answered? {
      forall j: nat ensures !AnswersAt(w, n, j) {
        assert !StillThere(w, k + 1);
      }
    }
  }

  /** What the run does from a manager's answer on. */
  ghost predicate AnsweredEnd(w: World, m: Id, leg: Option<string>, left: bool, callManager: Option<Id>,
                              end: Run, outcome: Outcome)
  {
    var stays := !w.freshReads || !left;
    var bridges := stays && w.whisper.Done? && (w.freshReads ==> w.duringWhisper.OnLine?);
    && (outcome.Success? <==> bridges && w.bridge.Done?)
    && (outcome.CallerDroppedError? <==> !stays || (w.whisper.Done? && !bridges))
    && (EndsAs(end, TimedOut, "briefing") <==> stays && w.whisper.Overran?)
    && (EndsAs(end, BridgeFailed, "briefing") <==> stays && w.whisper.Broke?)
    && (EndsAs(end, TimedOut, "bridge_timeout") <==> bridges && w.bridge.Overran?)
    && (EndsAs(end, BridgeFailed, "bridge") <==> bridges && w.bridge.Broke?)
    && !EndsAs(end, FailedNoAnswer, "dial")
    && end.legs != [] && end.legs[0] == LegAnswered(m, leg)
    && (if stays then end.record.managerCallId == leg && end.callManager == Some(m)
        else end.record.managerCallId == None && end.callManager == callManager)
  }

  lemma BridgeEnd(w: World, info: CallInfo, leg: Option<string>, r: Run)
    requires !Terminal(r.copy) && r.legs != []
    ensures var (end, outcome) := BridgePhase(w, info, leg, r);
            && (outcome.Success? <==> !Gone(w, r) && w.bridge.Done?)
            && (outcome.CallerDroppedError? <==> Gone(w, r))
            && (EndsAs(end, TimedOut, "bridge_timeout") <==> !Gone(w, r) && w.bridge.Overran?)
            && (EndsAs(end, BridgeFailed, "bridge") <==> !Gone(w, r) && w.bridge.Broke?)
            && (outcome.Success? ==> end.record.failureStage == r.record.failureStage && end.record.status == Connected)
            && (!outcome.Success?
                ==> end.record.failureStage in {Some("caller_dropped"), Some("bridge_timeout"), Some("bridge")})
            && end.legs != [] && end.legs[0] == r.legs[0]
            && end.record.managerCallId == r.record.managerCallId && end.callManager == r.callManager
  {
  }

  /** How the whisper and what follows it end, for a caller who may have left meanwhile. */
  ghost predicate BriefedEnd(w: World, r: Run, left: bool, end: Run, outcome: Outcome)
    requires r.legs != []
  {
    var bridges := w.whisper.Done? && (w.freshReads ==> !left);
    && (outcome.Success? <==> bridges && w.bridge.Done?)
    && (outcome.CallerDroppedError? <==> w.whisper.Done? && !bridges)
    && (EndsAs(end, TimedOut, "briefing") <==> w.whisper.Overran?)
    && (EndsAs(end, BridgeFailed, "briefing") <==> w.whisper.Broke?)
    && (EndsAs(end, TimedOut, "bridge_timeout") <==> bridges && w.bridge.Overran?)
    && (EndsAs(end, BridgeFailed, "bridge") <==> bridges && w.bridge.Broke?)
    && !EndsAs(end, FailedNoAnswer, "dial")
    && end.legs != [] && end.legs[0] == r.legs[0]
    && end.record.managerCallId == r.record.managerCallId && end.callManager == r.callManager
  }

  lemma WhisperEnd(w: World, info: CallInfo, leg: Option<string>, r: Run, left: bool)
    requires !Terminal(r.copy) && r.legs != [] && (Gone(w, r) <==> w.freshReads && left)
    requires r.record.failureStage == None
    ensures var (end, outcome) := WhisperPhase(w, info, leg, r); BriefedEnd(w, r, left, end, outcome)
  {
    if w.whisper.Done? {
      BridgeEnd(w, info, leg, r.(legs := r.legs + [LegBriefed(leg)]));
    }
  }

  lemma BriefingEnd(w: World, info: CallInfo, m: Id, leg: Option<string>, r: Run, left: bool, callManager: Option<Id>)
    requires !Terminal(r.copy) && (Gone(w, r) <==> w.freshReads && left) && r.record.failureStage == None
    requires r.legs == [LegAnswered(m, leg)] && r.record.managerCallId == None && r.callManager == callManager
    ensures var (end, outcome) := BriefingPhase(w, info, m, leg, r);
            AnsweredEnd(w, m, leg, left, callManager, end, outcome)
  {
    if !Gone(w, r) {
      WhisperEnd(w, info, leg, Wait(Brief(m, leg, r), w.duringWhisper), w.duringWhisper.HungUp?);
    }
  }

  /** Nobody has answered yet, and the service has no reason to think that the caller left. */
  ghost predicate Dialling(w: World, r: Run, callManager: Option<Id>) {
    && !Terminal(r.copy) && r.record.failureStage == None
    && r.legs == [] && r.record.managerCallId == None && r.callManager == callManager
  }

  ghost predicate UnansweredEnd(end: Run, outcome: Outcome, callManager: Option<Id>) {
    && end.legs == [] && end.record.managerCallId == None && end.callManager == callManager
    && if outcome.TransferError? then EndsAs(end, FailedNoAnswer, "dial")
       else outcome.CallerDroppedError? && EndsAs(end, CallerDropped, "caller_dropped")
  }

  lemma {:induction false} AttemptsEnd(w: World, info: CallInfo, managers: seq<Id>, k: nat, r: Run,
                                       callManager: Option<Id>)
    requires k <= |managers| && Dialling(w, r, callManager) && (Gone(w, r) ==> k == |managers|)
    ensures var (end, outcome) := Attempts(w, info, managers, k, r); var first := FirstAnswer(w, |managers|, k);
            if first.Some? then
              && k <= first.value < |managers| && w.dial(first.value).Answered?
              && AnsweredEnd(w, managers[first.value], w.dial(first.value).leg, w.duringDial(first.value).HungUp?,
                             callManager, end, outcome)
            else UnansweredEnd(end, outcome, callManager)
    decreases |managers| - k
  {
    if k < |managers| {
      var m := managers[k];
      var s := Select(w, m, k, r);
      if !Gone(w, s) {
        var t := Wait(s, w.duringDial(k));
        match w.dial(k)
        case Answered(leg) =>
          BriefingEnd(w, info, m, leg, t.(legs := t.legs + [LegAnswered(m, leg)]), w.duringDial(k).HungUp?,
                      callManager);
        case _ =>
          if !Gone(w, t) || k + 1 == |managers| {
            AttemptsEnd(w, info, managers, k + 1, t.(marked := t.marked + [m]), callManager);
          }
      }
    }
  }

  lemma {:induction false} NobodyAnswersMeaning(w: World, n: nat, k: nat)
    requires k <= n && QuietUntil(w, k)
    ensures NobodyAnswers(w, n, k) <==> NoneAnswers(w, n)
    decreases n - k
  {
    if k < n && !w.dial(k).Answered? && (w.freshReads ==> w.beforeDial(k).OnLine?) {
      if w.freshReads && w.duringDial(k).HungUp? {
        if k + 1 < n {
          assert !StillThere(w, k + 1);
        } else {
          assert NobodyAnswers(w, n, n);
        }
      } else {
        NobodyAnswersMeaning(w, n, k + 1);
      }
    } else if k < n && w.dial(k).Answered? {
      assert !NoneAnswers(w, n);
    } else if k < n {
      assert !StillThere(w, k);
    }
  }

  lemma {:induction false} GoneFrom(w: World, n: nat, k: nat) returns (j: nat)
    requires k <= n && QuietUntil(w, k) && FirstAnswer(w, n, k) == None && !NobodyAnswers(w, n, k)
    ensures w.freshReads && GoneBefore(w, n, j)
    decreases n - k
  {
    if w.freshReads && w.beforeDial(k).HungUp? {
      j := k;
    } else if w.freshReads && w.duringDial(k).HungUp? {
      assert NobodyAnswers(w, n, n);
      j := k + 1;
    } else {
      j := GoneFrom(w, n, k + 1);
    }
  }

  lemma UnansweredMeaning(w: World, n: nat)
    requires FirstAnswer(w, n, 0) == None
    ensures NoneAnswers(w, n) <==> NobodyAnswers(w, n, 0)
    ensures FoundGone(w, n) <==> !NoneAnswers(w, n)
    ensures !Briefs(w, n)
  {
    FirstAnswerMeaning(w, n, 0);
    NobodyAnswersMeaning(w, n, 0);
    if !NoneAnswers(w, n) {
      var k := GoneFrom(w, n, 0);
    }
  }

  lemma AnsweredMeaning(w: World, n: nat, k: nat)
    requires FirstAnswer(w, n, 0) == Some(k)
    ensures AnswersAt(w, n, k) && !NoneAnswers(w, n)
    ensures Briefs(w, n) <==> !w.freshReads || w.duringDial(k).OnLine?
    ensures BriefsAt(w, n, k) <==> !w.freshReads || w.duringDial(k).OnLine?
    ensures FoundGone(w, n)
            <==> w.freshReads && (w.duringDial(k).HungUp? || (w.whisper.Done? && w.duringWhisper.HungUp?))
  {
    FirstAnswerMeaning(w, n, 0);
    assert BriefsAt(w, n, k) <==> !w.freshReads || w.duringDial(k).OnLine?;
    forall j: nat ensures w.freshReads ==> !GoneBefore(w, n, j) {
    }
  }

  /**
   Each way to end holds exactly under a condition on the world alone: a transfer succeeds if and only if some manager
   answers after nothing but failures, no reading finds the caller gone, the whisper is done and the bridge is done.
   */
  lemma OutcomeExactly(w: World, info: CallInfo, managers: seq<Id>, status: CallStatus, callManager: Option<Id>)
    ensures var (end, outcome) := Transfer(w, info, managers, status, callManager); var n := |managers|;
            && (outcome.Success? <==> Bridges(w, n) && w.bridge.Done?)
            && (outcome.CallerDroppedError? <==> FoundGone(w, n))
            && (EndsAs(end, FailedNoAnswer, "dial") <==> NoneAnswers(w, n))
            && (EndsAs(end, TimedOut, "briefing") <==> Briefs(w, n) && w.whisper.Overran?)
            && (EndsAs(end, BridgeFailed, "briefing") <==> Briefs(w, n) && w.whisper.Broke?)
            && (EndsAs(end, TimedOut, "bridge_timeout") <==> Bridges(w, n) && w.bridge.Overran?)
            && (EndsAs(end, BridgeFailed, "bridge") <==> Bridges(w, n) && w.bridge.Broke?)
  {
    var n := |managers|;
    AttemptsEnd(w, info, managers, 0, Begin(status, callManager), callManager);
    NoAnswerExactly(w, info, managers, status, callManager);
    AttemptsPaired(w, info, managers, 0, Begin(status, callManager));
    if FirstAnswer(w, n, 0).Some? {
      AnsweredMeaning(w, n, FirstAnswer(w, n, 0).value);
    } else {
      UnansweredMeaning(w, n);
    }
  }

  /** Who answered, by which leg, and what the record and the call keep of it. */
  lemma AnswerKept(w: World, info: CallInfo, managers: seq<Id>, status: CallStatus, callManager: Option<Id>)
    ensures var end := Transfer(w, info, managers, status, callManager).0; var n := |managers|;
            && (forall k: nat :: AnswersAt(w, n, k) ==>
                  end.legs != [] && end.legs[0] == LegAnswered(managers[k], w.dial(k).leg))
            && (end.legs != [] ==> exists k: nat :: AnswersAt(w, n, k))
            && (forall k: nat :: BriefsAt(w, n, k) ==>
                  end.record.managerCallId == w.dial(k).leg && end.callManager == Some(managers[k]))
            && (!Briefs(w, n) ==> end.record.managerCallId == None && end.callManager == callManager)
  {
    var n := |managers|;
    AttemptsEnd(w, info, managers, 0, Begin(status, callManager), callManager);
    FirstAnswerMeaning(w, n, 0);
    if FirstAnswer(w, n, 0).Some? {
      AnsweredMeaning(w, n, FirstAnswer(w, n, 0).value);
    }
  }

  // ---- Candidates ----

  predicate DistinctIds(managers: seq<Manager>) {
    forall i, j :: 0 <= i < j < |managers| ==> managers[i].id != managers[j].id
  }

  predicate InOrder(managers: seq<Manager>) {
    forall i, j :: 0 <= i < j < |managers| ==> Precedes(managers[i], managers[j])
  }

  lemma {:induction false} FilterMeaning(table: seq<Manager>, department: Option<string>)
    ensures forall m :: m in Filter(table, department) <==> m in table && Eligible(m, department)
    ensures DistinctIds(table) ==> DistinctIds(Filter(table, department))
  {
    if table != [] {
      FilterMeaning(table[1..], department);
      var rest := Filter(table[1..], department);
      if DistinctIds(table) && Eligible(table[0], department) {
        forall j | 0 <= j < |rest| ensures rest[j].id != table[0].id {
          assert rest[j] in table[1..];
        }
      }
    }
  }

  lemma {:induction false} InsertElements(m: Manager, sorted: seq<Manager>)
    ensures multiset(Insert(m, sorted)) == multiset(sorted) + multiset{m}
  {
    if sorted != [] && !Precedes(m, sorted[0]) {
      InsertElements(m, sorted[1..]);
      assert sorted == [sorted[0]] + sorted[1..];
    }
  }

  lemma {:induction false} InsertInOrder(m: Manager, sorted: seq<Manager>)
    requires InOrder(sorted)
    ensures InOrder(Insert(m, sorted))
  {
    if sorted != [] && !Precedes(m, sorted[0]) {
      var rest := Insert(m, sorted[1..]);
      InsertInOrder(m, sorted[1..]);
      forall j | 0 <= j < |rest| ensures Precedes(sorted[0], rest[j]) {
        InsertElements(m, sorted[1..]);
        assert rest[j] in multiset(rest);
        assert rest[j] in sorted[1..] || rest[j] == m;
      }
    } else if sorted != [] {
      assert forall j :: 0 < j < |sorted| ==> Precedes(sorted[0], sorted[j]);
    }
  }

  lemma {:induction false} SortMeaning(managers: seq<Manager>)
    ensures InOrder(SortByPriority(managers))
    ensures multiset(SortByPriority(managers)) == multiset(managers)
  {
    if managers != [] {
      SortMeaning(managers[1..]);
      InsertElements(managers[0], SortByPriority(managers[1..]));
      InsertInOrder(managers[0], SortByPriority(managers[1..]));
      assert managers == [managers[0]] + managers[1..];
    }
  }

  /** Distinctness survives rearrangement. */
  lemma DistinctPermutation(a: seq<Manager>, b: seq<Manager>)
    requires multiset(a) == multiset(b) && DistinctIds(a)
    ensures DistinctIds(b)
  {
    forall i, j | 0 <= i < j < |b| ensures b[i].id != b[j].id {
      assert b[i] in multiset(a) && b[j] in multiset(a);
      if b[i].id == b[j].id {
        TwiceInMultiset(b, i, j);
        OnceInDistinct(a, b[i]);
      }
    }
  }

  lemma TwiceInMultiset(b: seq<Manager>, i: nat, j: nat)
    requires i < j < |b|
    ensures b[i] == b[j] ==> multiset(b)[b[i]] >= 2
  {
    assert b == b[..j] + b[j..];
    assert b[..j][i] == b[i] && b[j..][0] == b[j];
    assert b[i] in multiset(b[..j]) && b[j] in multiset(b[j..]);
  }

  lemma {:induction false} OnceInDistinct(a: seq<Manager>, m: Manager)
    requires DistinctIds(a)
    ensures multiset(a)[m] <= 1
    ensures forall x :: x in a && m in a && x.id == m.id ==> x == m
  {
    if a != [] {
      OnceInDistinct(a[1..], m);
      assert a == [a[0]] + a[1..];
    }
  }

  /** The query: active and available managers, of the department if one is asked for, by priority and then by age. */
  ghost predicate Queried(table: seq<Manager>, department: Option<string>, found: seq<Manager>) {
    && (forall m :: m in found <==> m in table && m.isActive && m.isAvailable
                                    && (department == None || m.department == department))
    && (forall i, j :: 0 <= i < j < |found| ==>
          found[i].priority < found[j].priority
          || (found[i].priority == found[j].priority && found[i].createdAt <= found[j].createdAt))
    && (DistinctIds(table) ==> DistinctIds(found))
  }

  lemma AvailableMeaning(table: seq<Manager>, department: Option<string>)
    ensures Queried(table, department, FindAvailable(table, department))
  {
    var kept, found := Filter(table, department), FindAvailable(table, department);
    FilterMeaning(table, department);
    SortMeaning(kept);
    if DistinctIds(table) {
      DistinctPermutation(kept, found);
    }
    forall m ensures m in found <==> m in kept {
      assert m in multiset(found) <==> m in multiset(kept);
    }
  }

  /** The department decides, unless none of its managers is free; then everyone free is a candidate. */
  ghost function DepartmentUsed(table: seq<Manager>, department: Option<string>): Option<string> {
    if exists m :: m in table && m.isActive && m.isAvailable && department.Some? && m.department == department
    then department else None
  }

  lemma CandidatesMeaning(table: seq<Manager>, department: Option<string>)
    ensures Queried(table, DepartmentUsed(table, department), Candidates(table, department))
  {
    AvailableMeaning(table, department);
    AvailableMeaning(table, None);
    var found := FindAvailable(table, department);
    if found != [] {
      assert found[0] in found;
    }
    if department.Some? && exists m :: m in table && m.isActive && m.isAvailable && m.department == department {
      var m :| m in table && m.isActive && m.isAvailable && m.department == department;
      assert m in found;
    }
  }

  /** Nobody is tried twice, and never more managers than the setting allows. */
  lemma TriedMeaning(table: seq<Manager>, department: Option<string>, limit: int)
    ensures var tried, found := Tried(table, department, limit), Candidates(table, department);
            && (limit > 0 ==> |tried| == Min(limit, |found|))
            && (limit == 0 ==> |tried| == |found|)
            && (limit < 0 ==> |tried| == Max(0, |found| + limit))
            && (forall i :: 0 <= i < |tried| ==> tried[i] == found[i].id)
            && (DistinctIds(table) ==> forall i, j :: 0 <= i < j < |tried| ==> tried[i] != tried[j])
  {
    CandidatesMeaning(table, department);
  }
}
