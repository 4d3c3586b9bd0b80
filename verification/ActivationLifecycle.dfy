/**
 One boundary's reading of an overseer activation: which lifecycle event its
 durable records carry, and how a finished turn is recorded.
 */
module ActivationLifecycle {
  import opened Assignments
  import opened Basics

  datatype ActivationState =
    | Idle | PendingDispatch | Active | Spent | Revoked | RecoveryRequired | Escalated | Closed

  datatype Event =
    | TriggerFired | DispatchConfirmed | DispatchUndelivered | DispatchAmbiguous | DecisionRecorded
    | LimitReached | LeaseExpired | ThreadLost | EventsArrived | RunSettled

  datatype TurnOutcome = NoOutcome | Decided | NoDecision | DecidedByOperator

  datatype Purpose = Review | Repair

  datatype TriggerKind = TaskJudgmentRequired | OperatorReassessment | OtherTrigger

  /** One inbox entry; `repairAcknowledged` is set when a recovery retry was committed for it. */
  datatype InboxEvent = InboxEvent(
    id: Id, kind: TriggerKind, sequence: int, occurredAt: int, incident: Id, repairAcknowledged: bool)

  /** One recorded gate decision. */
  datatype Decision = Decision(epoch: nat, overseer: bool)

  datatype Activation = Activation(
    epoch: nat, state: ActivationState, purpose: Purpose, incident: Id, readyTie: Id,
    turnsUsed: nat, operatorDecisions: nat)

  /** Everything one boundary reads about a run before it decides. */
  datatype Reading = Reading(
    activation: Activation, assignment: Option<AssignmentState>, decisions: seq<Decision>,
    pending: seq<InboxEvent>, cursor: int, recovery: bool, otherValid: bool,
    leaseLive: bool, pastDeadline: bool)

  datatype Signal = Signal(
    event: Event, purpose: Purpose, executionObserved: bool, runtimeProvenStopped: bool,
    outcome: TurnOutcome, reassessment: bool)

  function Plain(event: Event): Signal {
    Signal(event, Review, false, false, NoOutcome, false)
  }

  // ------------------------------------------------------------------- event lanes

  function RepairEvents(events: seq<InboxEvent>): (selected: seq<InboxEvent>)
    ensures forall e :: e in selected <==> e in events && e.kind == TaskJudgmentRequired && !e.repairAcknowledged
  {
    if events == [] then []
    else
      (if events[0].kind == TaskJudgmentRequired && !events[0].repairAcknowledged then [events[0]] else [])
      + RepairEvents(events[1..])
  }

  function ReviewerEvents(events: seq<InboxEvent>): (selected: seq<InboxEvent>)
    ensures forall e :: e in selected <==> e in events && e.kind != TaskJudgmentRequired
  {
    if events == [] then []
    else (if events[0].kind != TaskJudgmentRequired then [events[0]] else []) + ReviewerEvents(events[1..])
  }

  /** Repair owns its own lane, which no cursor passes over. */
  function LaneCursor(reading: Reading, purpose: Purpose): int {
    if purpose == Repair then 0 else reading.cursor
  }

  function Lane(reading: Reading, purpose: Purpose): seq<InboxEvent> {
    if purpose == Repair then RepairEvents(reading.pending) else ReviewerEvents(reading.pending)
  }

  predicate Waiting(events: seq<InboxEvent>, cursor: int) {
    exists e <- events :: e.sequence > cursor
  }

  /** Repair goes first: a failed producer is repaired before its gate is reviewed. */
  function LanePurpose(reading: Reading): Purpose {
    if reading.recovery && RepairEvents(reading.pending) != [] then Repair else Review
  }

  predicate InboxWaiting(reading: Reading) {
    Waiting(Lane(reading, LanePurpose(reading)), LaneCursor(reading, LanePurpose(reading)))
  }

  /** An operator asked for the dispatch to be reassessed. */
  predicate Reassessed(reading: Reading) {
    exists e <- reading.pending :: e.kind == OperatorReassessment && e.sequence > reading.cursor
  }

  // ------------------------------------------------------------ how a turn is recorded

  ghost predicate DecidedAt(decisions: seq<Decision>, epoch: nat) {
    exists d <- decisions :: d.epoch == epoch && d.overseer
  }

  function CountAt(decisions: seq<Decision>, epoch: nat): nat {
    if decisions == [] then 0
    else (if decisions[0].epoch == epoch && decisions[0].overseer then 1 else 0) + CountAt(decisions[1..], epoch)
  }

  lemma {:induction false} CountsDecisions(decisions: seq<Decision>, epoch: nat)
    ensures CountAt(decisions, epoch) > 0 <==> DecidedAt(decisions, epoch)
    ensures CountAt(decisions, epoch) <= |decisions|
  {
    if decisions != [] {
      CountsDecisions(decisions[1..], epoch);
      assert forall d <- decisions :: d == decisions[0] || d in decisions[1..];
    }
  }

  method ActivationDecisionCount(decisions: seq<Decision>, epoch: nat) returns (count: nat)
    ensures count == CountAt(decisions, epoch)
    ensures count > 0 <==> DecidedAt(decisions, epoch)
  {
    count := 0;
    for i := 0 to |decisions|
      invariant count + CountAt(decisions[i..], epoch) == CountAt(decisions, epoch)
    {
      assert decisions[i..][1..] == decisions[i + 1..];
      if decisions[i].epoch == epoch && decisions[i].overseer {
        count := count + 1;
      }
    }
    CountsDecisions(decisions, epoch);
  }

  /** The event a repair activation was woken for was acknowledged for repair. */
  predicate RepairCommitted(events: seq<InboxEvent>, activation: Activation) {
    exists e <- events :: e.kind == TaskJudgmentRequired && e.incident == activation.incident
      && e.id == activation.readyTie && e.repairAcknowledged
  }

  method RepairActivationCommitted(events: seq<InboxEvent>, activation: Activation) returns (committed: bool)
    ensures committed == RepairCommitted(events, activation)
  {
    for i := 0 to |events|
      invariant forall e <- events[..i] ::
        !(e.kind == TaskJudgmentRequired && e.incident == activation.incident
          && e.id == activation.readyTie && e.repairAcknowledged)
    {
      assert events[..i + 1] == events[..i] + [events[i]];
      if events[i].kind != TaskJudgmentRequired || events[i].incident != activation.incident
         || events[i].id != activation.readyTie {
        continue;
      }
      if events[i].repairAcknowledged {
        return true;
      }
    }
    assert events[..|events|] == events;
    return false;
  }

  function OutcomeOfTurn(decisions: nat, operatorDecisions: nat): TurnOutcome {
    if decisions > 0 then Decided
    else if operatorDecisions > 0 then DecidedByOperator
    else NoDecision
  }

  function CompletedOutcome(reading: Reading): TurnOutcome {
    var a := reading.activation;
    if a.purpose == Repair && RepairCommitted(reading.pending, a) then Decided
    else OutcomeOfTurn(CountAt(reading.decisions, a.epoch), a.operatorDecisions)
  }

  // ------------------------------------------------------------------------ signals

  /** The event a dispatched activation's own records imply. */
  function LifecycleSignal(reading: Reading): Option<Signal> {
    var a := reading.activation;
    if reading.assignment.None? then None
    else
      match (a.state, reading.assignment.value)
      case (PendingDispatch, Claimed) => Some(Plain(DispatchConfirmed).(executionObserved := true))
      case (PendingDispatch, Released) => Some(Plain(DispatchUndelivered))
      case (PendingDispatch, Unknown) => Some(Plain(DispatchAmbiguous))
      case (Active, assignment) =>
        if !reading.leaseLive || reading.pastDeadline then Some(Plain(LeaseExpired).(executionObserved := true))
        else (
          match assignment
          case Claimed =>
            if CountAt(reading.decisions, a.epoch) <= a.turnsUsed then None
            else Some(Plain(DecisionRecorded).(executionObserved := true))
          case Completed =>
            Some(Plain(LimitReached).(executionObserved := true, outcome := CompletedOutcome(reading)))
          case Released => Some(Plain(ThreadLost).(executionObserved := true, runtimeProvenStopped := true))
          case Unknown => Some(Plain(ThreadLost).(executionObserved := true))
          case Offered => None)
      case _ => None
  }

  /** The wake a boundary carries when the records imply no event. */
  function WakeSignal(reading: Reading): Option<Signal> {
    var a := reading.activation;
    if a.state == PendingDispatch then
      if reading.assignment.Some? then
        if Reassessed(reading) && reading.assignment.value in {Offered, Released}
        then Some(Plain(EventsArrived).(reassessment := true))
        else None
      else Some(Plain(DispatchUndelivered))
    else if !InboxWaiting(reading) || reading.otherValid then None
    else
      match a.state
      case Idle => Some(Plain(TriggerFired).(purpose := LanePurpose(reading)))
      case Spent => Some(Plain(EventsArrived).(purpose := LanePurpose(reading)))
      case _ => None
  }

  /** What one boundary decides for a run: its own records first, then a wake. */
  function BoundarySignal(reading: Reading): Option<Signal> {
    var own := LifecycleSignal(reading);
    if own.Some? then own else WakeSignal(reading)
  }

  predicate MayDispatch(signal: Signal) {
    match signal.event
    case TriggerFired => true
    case DispatchUndelivered => true
    case EventsArrived => signal.reassessment
    case _ => false
  }

  // -------------------------------------------------------------------- what holds

  ghost predicate Signals(reading: Reading, event: Event) {
    BoundarySignal(reading).Some? && BoundarySignal(reading).value.event == event
  }

  /** The positions at which an overseer decision of this epoch stands. */
  ghost function DecisionsAt(decisions: seq<Decision>, epoch: nat): set<nat> {
    set i: nat | i < |decisions| && decisions[i].overseer && decisions[i].epoch == epoch
  }

  lemma {:induction false} CountOneMore(decisions: seq<Decision>, d: Decision, epoch: nat)
    ensures CountAt(decisions + [d], epoch) == CountAt(decisions, epoch) + if d.epoch == epoch && d.overseer then 1 else 0
  {
    if decisions != [] {
      assert (decisions + [d])[1..] == decisions[1..] + [d];
      CountOneMore(decisions[1..], d, epoch);
    }
  }

  lemma {:induction false} CountIsDecisions(decisions: seq<Decision>, epoch: nat)
    ensures CountAt(decisions, epoch) == |DecisionsAt(decisions, epoch)|
  {
    if decisions == [] {
      assert DecisionsAt(decisions, epoch) == {};
    } else {
      var init, d := decisions[..|decisions| - 1], decisions[|decisions| - 1];
      assert decisions == init + [d];
      CountOneMore(init, d, epoch);
      CountIsDecisions(init, epoch);
      var last := if d.overseer && d.epoch == epoch then {|init|} else {};
      assert DecisionsAt(decisions, epoch) == DecisionsAt(init, epoch) + last;
    }
  }

  /** Some producer failure waits for repair and repair is allowed. */
  ghost predicate RepairWaits(reading: Reading) {
    reading.recovery && exists e <- reading.pending :: e.kind == TaskJudgmentRequired && !e.repairAcknowledged
  }

  /** While a repair waits its own lane decides, from the start; otherwise whatever else lies past the cursor. */
  lemma InboxWaitingExact(reading: Reading)
    ensures LanePurpose(reading) == Repair <==> RepairWaits(reading)
    ensures InboxWaiting(reading) <==>
      if RepairWaits(reading)
      then exists e <- reading.pending :: e.kind == TaskJudgmentRequired && !e.repairAcknowledged && e.sequence > 0
      else exists e <- reading.pending :: e.kind != TaskJudgmentRequired && e.sequence > reading.cursor
  {
    var repair, review := RepairEvents(reading.pending), ReviewerEvents(reading.pending);
    assert repair != [] ==> repair[0] in repair;
    assert forall e <- reading.pending :: e in repair <==> e.kind == TaskJudgmentRequired && !e.repairAcknowledged;
    assert forall e <- reading.pending :: e in review <==> e.kind != TaskJudgmentRequired;
  }

  /**
   Which event a boundary signals, event by event: a claim confirms a pending
   dispatch, silence makes it ambiguous, a release or a missing assignment leaves
   it undelivered; a running turn first loses its lease, then its thread, or
   records a decision or its end; and only an idle or spent activation, or an
   offer an operator asked to reassess, is woken by the inbox.
   */
  lemma SignalExact(reading: Reading)
    ensures
      var a, row := reading.activation, reading.assignment;
      var live := reading.leaseLive && !reading.pastDeadline;
      var wakes := InboxWaiting(reading) && !reading.otherValid;
      && (Signals(reading, DispatchConfirmed) <==> a.state == PendingDispatch && row == Some(Claimed))
      && (Signals(reading, DispatchAmbiguous) <==> a.state == PendingDispatch && row == Some(Unknown))
      && (Signals(reading, DispatchUndelivered) <==> a.state == PendingDispatch && row in {None, Some(Released)})
      && (Signals(reading, LeaseExpired) <==> a.state == Active && row.Some? && !live)
      && (Signals(reading, ThreadLost) <==> a.state == Active && live && row in {Some(Released), Some(Unknown)})
      && (Signals(reading, LimitReached) <==> a.state == Active && live && row == Some(Completed))
      && (Signals(reading, DecisionRecorded) <==>
            && a.state == Active && live && row == Some(Claimed)
            && |DecisionsAt(reading.decisions, a.epoch)| > a.turnsUsed)
      && (Signals(reading, TriggerFired) <==> a.state == Idle && wakes)
      && (Signals(reading, EventsArrived) <==>
            || (a.state == Spent && wakes)
            || (a.state == PendingDispatch && row == Some(Offered)
                && exists e <- reading.pending :: e.kind == OperatorReassessment && reading.cursor < e.sequence))
      && !Signals(reading, RunSettled)
  {
    CountIsDecisions(reading.decisions, reading.activation.epoch);
    hide InboxWaiting, CountAt, CompletedOutcome;
  }

  /** And what the signal says besides. */
  lemma SignalCarries(reading: Reading)
    requires BoundarySignal(reading).Some?
    ensures
      var a, signal := reading.activation, BoundarySignal(reading).value;
      && (signal.executionObserved <==> a.state == Active || signal.event == DispatchConfirmed)
      && (signal.runtimeProvenStopped <==> signal.event == ThreadLost && reading.assignment == Some(Released))
      && (signal.reassessment <==> signal.event == EventsArrived && a.state == PendingDispatch)
      && (signal.purpose == Repair <==> a.state in {Idle, Spent} && RepairWaits(reading))
      && (signal.outcome == NoOutcome <==> signal.event != LimitReached)
  {
    InboxWaitingExact(reading);
    hide InboxWaiting, Reassessed, CountAt;
  }

  /**
   A boundary's signal may produce assigned work exactly for an idle activation
   with a waiting inbox and no other valid one, or a pending one that has no
   assignment, a released one, or an offered one an operator asked to reassess.
   It never does while the assignment is claimed, unknown or completed.
   */
  lemma DispatchSignalExact(reading: Reading)
    ensures
      (BoundarySignal(reading).Some? && MayDispatch(BoundarySignal(reading).value))
      <==>
      || (reading.activation.state == Idle && InboxWaiting(reading) && !reading.otherValid)
      || (reading.activation.state == PendingDispatch
          && (reading.assignment == None || reading.assignment == Some(Released)
              || (reading.assignment == Some(Offered) && Reassessed(reading))))
  {
  }

  /** The reassessment of a released offer is never signalled: its release is read first, as an undelivered dispatch. */
  lemma ReleasedReassessmentShadowed(reading: Reading)
    requires reading.activation.state == PendingDispatch && reading.assignment == Some(Released)
    ensures BoundarySignal(reading) == Some(Plain(DispatchUndelivered))
  {
  }

  /**
   A finished turn is never credited by its exit. While its lease and deadline
   hold it ends as decided exactly when an overseer decision stands at this very
   epoch or a repair was committed for the event that woke it, as decided by the
   operator exactly when not and the operator decided, and otherwise without a
   decision. Past either, it is revoked and credited with nothing.
   */
  lemma FinishedTurnExact(reading: Reading)
    requires reading.activation.state == Active && reading.assignment == Some(Completed)
    ensures
      var a := reading.activation;
      var live := reading.leaseLive && !reading.pastDeadline;
      var earned :=
        || (exists d <- reading.decisions :: d.overseer && d.epoch == a.epoch)
        || (a.purpose == Repair && exists e <- reading.pending ::
              e.kind == TaskJudgmentRequired && e.id == a.readyTie && e.incident == a.incident && e.repairAcknowledged);
      var signal := BoundarySignal(reading);
      && signal.Some? && signal.value.event == (if live then LimitReached else LeaseExpired)
      && (signal.value.outcome == Decided <==> live && earned)
      && (signal.value.outcome == DecidedByOperator <==> live && !earned && a.operatorDecisions > 0)
      && (signal.value.outcome == NoDecision <==> live && !earned && a.operatorDecisions == 0)
  {
    CountsDecisions(reading.decisions, reading.activation.epoch);
  }
}
