/**
 A supervised run over time: boundaries that read, plan and offer in separate
 steps, and workers that move the assignments in between.
 */
module Overseer {
  import opened Assignments
  import opened Basics
  import opened ActivationLifecycle

  const MAX_AUTO_RECOVERED: nat := 2

  // -------------------------------------------------------- the activation machine

  /** What a transition's transaction finds besides the activation itself. */
  datatype Guards = Guards(inboxNonEmpty: bool, otherValid: bool, budgetRemaining: bool, turnsRemaining: bool,
                           leaseValid: bool, epochAndRevisionMatch: bool, sameIncident: bool)

  datatype Moved = Moved(state: ActivationState, epoch: nat)

  /** The transition table; `None` is a refusal. */
  function Transition(state: ActivationState, epoch: nat, signal: Signal, g: Guards): Option<Moved> {
    if state == Closed then None
    else if signal.event == RunSettled then Some(Moved(Closed, epoch))
    else
      match (state, signal.event)
      case (Idle, TriggerFired) =>
        if !g.inboxNonEmpty || g.otherValid then None
        else Some(Moved(if g.budgetRemaining then PendingDispatch else Escalated, epoch))
      case (PendingDispatch, EventsArrived) =>
        if !signal.reassessment || !g.inboxNonEmpty then None
        else if !g.budgetRemaining then Some(Moved(Escalated, epoch))
        else Some(Moved(PendingDispatch, epoch + 1))
      case (PendingDispatch, DispatchConfirmed) => if g.leaseValid then Some(Moved(Active, epoch)) else None
      case (PendingDispatch, DispatchUndelivered) =>
        if signal.executionObserved then None else Some(Moved(PendingDispatch, epoch))
      case (PendingDispatch, DispatchAmbiguous) => Some(Moved(RecoveryRequired, epoch))
      case (Active, DecisionRecorded) =>
        if g.leaseValid && g.epochAndRevisionMatch && g.turnsRemaining then Some(Moved(Active, epoch)) else None
      case (Active, LimitReached) => Some(Moved(Spent, epoch))
      case (Active, LeaseExpired) => Some(Moved(Revoked, epoch))
      case (Active, ThreadLost) =>
        Some(if signal.runtimeProvenStopped then Moved(Idle, epoch + 1) else Moved(RecoveryRequired, epoch))
      case (Spent, EventsArrived) =>
        Some(if g.budgetRemaining then Moved(Idle, epoch + 1) else Moved(Escalated, epoch))
      case _ => None
  }

  /** The activation a run records: where it is, and how often its incident was recovered. */
  datatype Record = Record(state: ActivationState, epoch: nat, recovered: nat)

  datatype Plan = Plan(next: Record, dispatch: bool)

  /** The durable consequence of a signal; `dispatch` says an assignment is to be offered at `next.epoch`. */
  function PlanActivation(r: Record, signal: Signal, g: Guards): Option<Plan> {
    var moved := Transition(r.state, r.epoch, signal, g);
    if moved.None? then None
    else
      var next := Record(moved.value.state, moved.value.epoch, r.recovered);
      match signal.event
      case TriggerFired =>
        Some(Plan(next.(recovered := if g.sameIncident then r.recovered else 0), next.state == PendingDispatch))
      case DispatchUndelivered => Some(Plan(next, true))
      case EventsArrived =>
        Some(Plan(if next.state == Escalated then next else next.(recovered := 0),
                  r.state == PendingDispatch && next.state == PendingDispatch))
      case ThreadLost =>
        if next.state != Idle then Some(Plan(next, false))
        else if r.recovered + 1 > MAX_AUTO_RECOVERED then Some(Plan(next.(state := Escalated), false))
        else Some(Plan(next.(recovered := r.recovered + 1), false))
      case _ => Some(Plan(next, false))
  }

  ghost predicate Enters(state: ActivationState, epoch: nat, signal: Signal, g: Guards, next: ActivationState) {
    var moved := Transition(state, epoch, signal, g);
    moved.Some? && moved.value.state == next
  }

  /** From where, on what event and under which guards each state is entered. */
  lemma TransitionExact(state: ActivationState, epoch: nat, signal: Signal, g: Guards)
    ensures Enters(state, epoch, signal, g, Closed) <==> state != Closed && signal.event == RunSettled
    ensures Enters(state, epoch, signal, g, Active) <==>
      || (state == PendingDispatch && signal.event == DispatchConfirmed && g.leaseValid)
      || (state == Active && signal.event == DecisionRecorded && g.leaseValid && g.epochAndRevisionMatch && g.turnsRemaining)
    ensures Enters(state, epoch, signal, g, PendingDispatch) <==>
      || (state == Idle && signal.event == TriggerFired && g.inboxNonEmpty && !g.otherValid && g.budgetRemaining)
      || (state == PendingDispatch && signal.event == DispatchUndelivered && !signal.executionObserved)
      || (state == PendingDispatch && signal.event == EventsArrived && signal.reassessment && g.inboxNonEmpty
          && g.budgetRemaining)
    ensures Enters(state, epoch, signal, g, Escalated) <==>
      && !g.budgetRemaining
      && (|| (state == Idle && signal.event == TriggerFired && g.inboxNonEmpty && !g.otherValid)
          || (state == PendingDispatch && signal.event == EventsArrived && signal.reassessment && g.inboxNonEmpty)
          || (state == Spent && signal.event == EventsArrived))
    ensures Enters(state, epoch, signal, g, Idle) <==>
      || (state == Active && signal.event == ThreadLost && signal.runtimeProvenStopped)
      || (state == Spent && signal.event == EventsArrived && g.budgetRemaining)
    ensures Enters(state, epoch, signal, g, RecoveryRequired) <==>
      || (state == PendingDispatch && signal.event == DispatchAmbiguous)
      || (state == Active && signal.event == ThreadLost && !signal.runtimeProvenStopped)
    ensures Enters(state, epoch, signal, g, Spent) <==> state == Active && signal.event == LimitReached
    ensures Enters(state, epoch, signal, g, Revoked) <==> state == Active && signal.event == LeaseExpired
    ensures Transition(state, epoch, signal, g).Some? ==>
      Transition(state, epoch, signal, g).value.epoch ==
        if Enters(state, epoch, signal, g, Idle)
           || (Enters(state, epoch, signal, g, PendingDispatch) && signal.event == EventsArrived)
        then epoch + 1 else epoch
  {
  }

  /**
   What a plan adds to the transition: work is offered exactly when a dispatch is
   pending after it, and the incident's recoveries start over with a new incident
   or new events, rise with each replaced thread, and escalate past the limit.
   */
  lemma PlanExact(r: Record, signal: Signal, g: Guards)
    ensures PlanActivation(r, signal, g).Some? <==> Transition(r.state, r.epoch, signal, g).Some?
    ensures PlanActivation(r, signal, g).Some? ==>
      var plan := PlanActivation(r, signal, g).value;
      var moved := Transition(r.state, r.epoch, signal, g).value;
      var replaced := r.state == Active && moved.state == Idle;
      && plan.next.epoch == moved.epoch
      && plan.next.state == (if replaced && r.recovered >= MAX_AUTO_RECOVERED then Escalated else moved.state)
      && (plan.dispatch <==> moved.state == PendingDispatch)
      && plan.next.recovered ==
           if replaced && r.recovered < MAX_AUTO_RECOVERED then r.recovered + 1
           else if signal.event == TriggerFired && !g.sameIncident then 0
           else if signal.event == EventsArrived && moved.state != Escalated then 0
           else r.recovered
  {
  }

  // ----------------------------------------------------------------------- the run

  /** Where a boundary is: resting, having read the records, or having planned a dispatch it is about to offer. */
  datatype Boundary = Resting | Read(signal: Signal) | Planned(epoch: nat)

  /**
   Assignments are keyed by activation epoch, which their deterministic identity
   derives from. `evidence` holds the epochs whose offer left an immutable record
   of a failed dispatch.
   */
  datatype Run = Run(record: Record, assignments: map<nat, AssignmentState>, evidence: set<nat>, boundary: Boundary)

  predicate Live(a: AssignmentState) {
    a in {Offered, Claimed, Unknown}
  }

  /** Moves a worker, an expiry or a sweep may make: a settled assignment never moves again. */
  predicate WorkerMove(a: AssignmentState, b: AssignmentState) {
    || (a == Offered && b in {Claimed, Released})
    || (a in {Claimed, Unknown} && b in {Claimed, Unknown, Released, Completed})
  }

  datatype Step =
    | ReadRecords(reading: Reading)
    | Advance(guards: Guards)
    | Offer
    | GiveUp
    | Settle
    | Move(epoch: nat, to: AssignmentState)
    | Fail(epoch: nat)

  /** The reading is of this run's records as they stand. */
  predicate ReadsTruly(run: Run, reading: Reading) {
    && reading.activation.state == run.record.state && reading.activation.epoch == run.record.epoch
    && reading.assignment == if run.record.epoch in run.assignments then Some(run.assignments[run.record.epoch]) else None
  }

  /** An offer is replaced only while still offered and with evidence that its dispatch failed. */
  predicate Supersedable(run: Run) {
    && run.record.epoch in run.assignments && run.assignments[run.record.epoch] == Offered
    && run.record.epoch in run.evidence
  }

  /**
   One step of the system. A boundary reads, later advances against the state it
   then finds, later offers; it may stop anywhere, as a restart or a refused
   placement makes it. Workers move in between.
   */
  ghost predicate Next(run: Run, step: Step, run': Run) {
    match step
    case ReadRecords(reading) =>
      && run.boundary == Resting && ReadsTruly(run, reading) && BoundarySignal(reading).Some?
      && run' == run.(boundary := Read(BoundarySignal(reading).value))
    case Advance(guards) =>
      && run.boundary.Read?
      && var signal := run.boundary.signal;
         var plan := PlanActivation(run.record, signal, guards);
         && plan.Some? && (signal.reassessment ==> Supersedable(run))
         && run' == run.(
              record := plan.value.next,
              assignments := if signal.reassessment then run.assignments[run.record.epoch := Released] else run.assignments,
              boundary := if plan.value.dispatch then Planned(plan.value.next.epoch) else Resting)
    case Offer =>
      // An assignment that already exists at the epoch is returned, not replaced.
      && run.boundary.Planned?
      && var epoch := run.boundary.epoch;
         run' == run.(
           assignments := if epoch in run.assignments then run.assignments else run.assignments[epoch := Offered],
           boundary := Resting)
    case GiveUp => run' == run.(boundary := Resting)
    case Settle =>
      && run.boundary == Resting && run.record.state in {PendingDispatch, Active}
      && run' == run.(record := run.record.(state := Closed))
    case Move(epoch, to) =>
      && epoch in run.assignments && WorkerMove(run.assignments[epoch], to)
      && run' == run.(assignments := run.assignments[epoch := to])
    case Fail(epoch) =>
      && epoch in run.assignments && run.assignments[epoch] == Offered
      && run' == run.(evidence := run.evidence + {epoch})
  }

  ghost predicate Initial(run: Run) {
    && run.record.state == Idle && run.record.recovered == 0
    && run.assignments == map[] && run.evidence == {} && run.boundary == Resting
  }

  // --------------------------------------------------------------- what every step keeps

  /** Facts a signal was read from that no worker can undo. */
  ghost predicate SignalStands(run: Run, signal: Signal) {
    var epoch := run.record.epoch;
    && (signal.event == LimitReached ==> epoch in run.assignments && run.assignments[epoch] == Completed)
    && (signal.event == ThreadLost && signal.runtimeProvenStopped ==>
          epoch in run.assignments && run.assignments[epoch] == Released)
    && (signal.event == EventsArrived && !signal.reassessment ==> run.record.state == Spent)
    && (signal.event == EventsArrived && signal.reassessment ==> run.record.state == PendingDispatch)
  }

  ghost predicate Safe(run: Run) {
    && (forall e <- run.assignments.Keys :: e <= run.record.epoch)
    && (forall e <- run.assignments.Keys :: e < run.record.epoch ==> !Live(run.assignments[e]))
    && run.record.recovered <= MAX_AUTO_RECOVERED
    && (run.record.state == Idle ==> run.record.epoch !in run.assignments)
    && (run.record.state == Spent ==> run.record.epoch in run.assignments && run.assignments[run.record.epoch] == Completed)
    && (run.boundary.Read? ==> SignalStands(run, run.boundary.signal))
    && (run.boundary.Planned? ==> run.boundary.epoch == run.record.epoch && run.record.state == PendingDispatch)
  }

  /** A plan raises the epoch by at most one and only for a turn that is over or replaced; it is idle only then. */
  lemma PlanIs(r: Record, signal: Signal, g: Guards)
    requires PlanActivation(r, signal, g).Some? && r.recovered <= MAX_AUTO_RECOVERED
    ensures
      var plan := PlanActivation(r, signal, g).value;
      && r.epoch <= plan.next.epoch <= r.epoch + 1 && plan.next.recovered <= MAX_AUTO_RECOVERED
      && (plan.next.epoch > r.epoch ==>
            || (signal.event == ThreadLost && signal.runtimeProvenStopped)
            || (signal.event == EventsArrived && (signal.reassessment || r.state == Spent)))
      && (plan.next.state == Idle ==> plan.next.epoch > r.epoch)
      && (plan.next.state == Spent ==> signal.event == LimitReached && plan.next.epoch == r.epoch)
      && (plan.dispatch ==> plan.next.state == PendingDispatch)
  {
  }

  lemma AdvanceKeepsSafe(run: Run, guards: Guards, run': Run)
    requires Safe(run) && Next(run, Advance(guards), run')
    ensures Safe(run') && run.record.epoch <= run'.record.epoch
  {
    hide PlanActivation;
    PlanIs(run.record, run.boundary.signal, guards);
  }

  lemma StepKeepsSafe(run: Run, step: Step, run': Run)
    requires Safe(run) && Next(run, step, run')
    ensures Safe(run') && run.record.epoch <= run'.record.epoch
  {
    hide PlanActivation;
    match step {
      case Advance(guards) => AdvanceKeepsSafe(run, guards, run');
      case ReadRecords(reading) => SignalReadStands(run, reading);
      case _ =>
    }
  }

  lemma SignalReadStands(run: Run, reading: Reading)
    requires ReadsTruly(run, reading) && BoundarySignal(reading).Some?
    ensures SignalStands(run, BoundarySignal(reading).value)
  {
  }

  // ------------------------------------------------------------------------ whole runs

  ghost predicate IsRun(runs: seq<Run>, steps: seq<Step>) {
    && |runs| == |steps| + 1 && Initial(runs[0])
    && forall i | 0 <= i < |steps| :: Next(runs[i], steps[i], runs[i + 1])
  }

  lemma {:induction false} RunIsSafe(runs: seq<Run>, steps: seq<Step>, i: nat)
    requires IsRun(runs, steps) && i < |runs|
    ensures Safe(runs[i])
  {
    if i > 0 {
      RunIsSafe(runs, steps, i - 1);
      StepKeepsSafe(runs[i - 1], steps[i - 1], runs[i]);
    }
  }

  /**
   Never two overseers: however boundaries, restarts, claims, expiries, releases
   and operator reassessments interleave, no two assignments of the run are live
   at once.
   */
  lemma NeverTwoOverseers(runs: seq<Run>, steps: seq<Step>, i: nat, e: nat, e': nat)
    requires IsRun(runs, steps) && i < |runs|
    requires e in runs[i].assignments && Live(runs[i].assignments[e])
    requires e' in runs[i].assignments && Live(runs[i].assignments[e'])
    ensures e == e' == runs[i].record.epoch
  {
    RunIsSafe(runs, steps, i);
  }

  // ------------------------------------------------------------- one whole boundary

  /** A resting boundary reads the records as they stand and advances before any worker moves. */
  ghost predicate Bounds(run: Run, reading: Reading, guards: Guards, run': Run) {
    exists read: Run :: Next(run, ReadRecords(reading), read) && Next(read, Advance(guards), run')
  }

  /** A claimed dispatch comes to be active at the next boundary, under a valid lease. */
  lemma ClaimedComesActive(run: Run, reading: Reading, guards: Guards)
    requires run.boundary == Resting && ReadsTruly(run, reading) && guards.leaseValid
    requires run.record.state == PendingDispatch && reading.assignment == Some(Claimed)
    ensures Bounds(run, reading, guards, run.(record := run.record.(state := Active)))
  {
    var read := run.(boundary := Read(BoundarySignal(reading).value));
    assert Next(run, ReadRecords(reading), read);
  }

  /**
   What a boundary comes to for the state and the assignment it reads. An overseer
   whose assignment is claimed runs; a silent one is never replaced; one proven
   stopped is replaced at the next epoch until its incident was recovered twice;
   a finished one is spent; and past its lease it is revoked whatever it did.
   */
  lemma BoundaryOutcome(run: Run, reading: Reading, guards: Guards, run': Run)
    requires Bounds(run, reading, guards, run')
    ensures
      var r, r', row := run.record, run'.record, reading.assignment;
      var live := reading.leaseLive && !reading.pastDeadline;
      && (r.state == PendingDispatch && row == Some(Claimed) ==> r' == r.(state := Active))
      && (r.state == PendingDispatch && row == Some(Unknown) ==> r' == r.(state := RecoveryRequired))
      && (r.state == PendingDispatch && row in {None, Some(Released)} ==> r' == r && run'.boundary == Planned(r.epoch))
      && (r.state == Active && row.Some? && !live ==> r' == r.(state := Revoked))
      && (r.state == Active && live && row == Some(Claimed) ==> r' == r)
      && (r.state == Active && live && row == Some(Completed) ==> r' == r.(state := Spent))
      && (r.state == Active && live && row == Some(Unknown) ==> r' == r.(state := RecoveryRequired))
      && (r.state == Active && live && row == Some(Released) ==>
            r' == if r.recovered < MAX_AUTO_RECOVERED then Record(Idle, r.epoch + 1, r.recovered + 1)
                  else Record(Escalated, r.epoch + 1, r.recovered))
      && (r.state == Idle ==>
            && r'.state == (if guards.budgetRemaining then PendingDispatch else Escalated) && r'.epoch == r.epoch
            && (r'.state == PendingDispatch ==> run'.boundary == Planned(r.epoch)))
      && (r.state == Spent ==>
            r' == if guards.budgetRemaining then Record(Idle, r.epoch + 1, 0) else r.(state := Escalated))
  {
    hide CompletedOutcome, CountAt, InboxWaiting, Reassessed;
  }

  // ------------------------------------------------------------------ a replaced offer

  /** A pending dispatch leaves its epoch only when its offer still stands and left evidence of failure; it is released. */
  lemma ReplacedExact(run: Run, step: Step, run': Run)
    requires Next(run, step, run')
    requires run.record.state == PendingDispatch && run'.record.epoch != run.record.epoch
    ensures
      var epoch := run.record.epoch;
      && epoch in run.assignments && run.assignments[epoch] == Offered && epoch in run.evidence
      && run'.assignments == run.assignments[epoch := Released] && run'.record.epoch == epoch + 1
      && run'.record.state == PendingDispatch && run'.boundary == Planned(epoch + 1)
  {
  }

  lemma {:induction false} EvidenceIsOfFailure(runs: seq<Run>, steps: seq<Step>, i: nat, epoch: nat)
    requires IsRun(runs, steps) && i < |runs| && epoch in runs[i].evidence
    ensures exists k | 0 <= k < i :: steps[k] == Fail(epoch)
  {
    assert i > 0;
    var run, step, run' := runs[i - 1], steps[i - 1], runs[i];
    assert Next(run, step, run');
    EvidenceStep(run, step, run');
    if epoch in run.evidence {
      EvidenceIsOfFailure(runs, steps, i - 1, epoch);
    }
  }

  lemma EvidenceStep(run: Run, step: Step, run': Run)
    requires Next(run, step, run')
    ensures run'.evidence == if step.Fail? then run.evidence + {step.epoch} else run.evidence
  {
  }

  /** Over every run, an offer is replaced only after its own dispatch failed. */
  lemma ReplacedHadFailed(runs: seq<Run>, steps: seq<Step>, i: nat)
    requires IsRun(runs, steps) && i < |steps|
    requires runs[i].record.state == PendingDispatch && runs[i + 1].record.epoch != runs[i].record.epoch
    ensures exists k | 0 <= k < i :: steps[k] == Fail(runs[i].record.epoch)
  {
    assert Next(runs[i], steps[i], runs[i + 1]);
    ReplacedExact(runs[i], steps[i], runs[i + 1]);
    EvidenceIsOfFailure(runs, steps, i, runs[i].record.epoch);
  }

  /** Evidence is recorded of an offer that stands, and of nothing else. */
  lemma FailExact(run: Run, epoch: nat, run': Run)
    requires Next(run, Fail(epoch), run')
    ensures epoch in run.assignments && run.assignments[epoch] == Offered
    ensures run' == run.(evidence := run'.evidence) && run'.evidence == run.evidence + {epoch}
  {
  }

  const OFFERED := Run(Record(PendingDispatch, 0, 0), map[0 := Offered], {}, Resting)

  /** From the start a trigger comes to be dispatched and offered. */
  lemma FirstOffer() returns (runs: seq<Run>, steps: seq<Step>)
    ensures IsRun(runs, steps) && |runs| == 4 && runs[3] == OFFERED
  {
    var event := InboxEvent(Id(1), OtherTrigger, 1, 0, Id(0), false);
    var reading := Reading(Activation(0, Idle, Review, Id(0), Id(0), 0, 0), None, [], [event], 0, false, false, true, false);
    assert [event][1..] == [] && ReviewerEvents([event]) == [event] && event in [event];
    assert InboxWaiting(reading);
    var r0 := Run(Record(Idle, 0, 0), map[], {}, Resting);
    var r1 := r0.(boundary := Read(Plain(TriggerFired)));
    var r2 := r1.(record := Record(PendingDispatch, 0, 0), boundary := Planned(0));
    assert BoundarySignal(reading) == Some(Plain(TriggerFired));
    assert PlanActivation(r0.record, Plain(TriggerFired), OPEN_GUARDS) == Some(Plan(r2.record, true));
    assert Next(r0, ReadRecords(reading), r1);
    assert Next(r1, Advance(OPEN_GUARDS), r2);
    assert Next(r2, Offer, OFFERED);
    hide Next;
    runs, steps := [r0, r1, r2, OFFERED], [ReadRecords(reading), Advance(OPEN_GUARDS), Offer];
  }

  lemma Reassessment() returns (runs: seq<Run>, steps: seq<Step>)
    ensures Continues(OFFERED, runs, steps)
    ensures
      var last := runs[|runs| - 1];
      last.record == Record(PendingDispatch, 1, 0) && last.assignments == map[0 := Released, 1 := Offered]
  {
    var again := InboxEvent(Id(2), OperatorReassessment, 2, 0, Id(0), false);
    var reading := PendingReading(0).(assignment := Some(Offered), pending := [again]);
    assert again in [again] && Reassessed(reading);
    var replace := Plain(EventsArrived).(reassessment := true);
    var r4 := OFFERED.(evidence := {0});
    var r5 := r4.(boundary := Read(replace));
    var r6 := r5.(record := Record(PendingDispatch, 1, 0), assignments := map[0 := Released], boundary := Planned(1));
    var r7 := r6.(assignments := map[0 := Released, 1 := Offered], boundary := Resting);
    assert BoundarySignal(reading) == Some(replace);
    assert PlanActivation(r4.record, replace, OPEN_GUARDS) == Some(Plan(r6.record, true));
    assert Next(OFFERED, Fail(0), r4);
    assert Next(r4, ReadRecords(reading), r5);
    assert Next(r5, Advance(OPEN_GUARDS), r6);
    assert Next(r6, Offer, r7);
    hide Next;
    runs, steps := [OFFERED, r4, r5, r6, r7], [Fail(0), ReadRecords(reading), Advance(OPEN_GUARDS), Offer];
  }

  /** A replacement is reached: an offer whose dispatch failed is reassessed, released and offered anew at the next epoch. */
  lemma ReplacementIsReached() returns (runs: seq<Run>, steps: seq<Step>)
    ensures IsRun(runs, steps)
    ensures
      var last := runs[|runs| - 1];
      last.record == Record(PendingDispatch, 1, 0) && last.assignments == map[0 := Released, 1 := Offered]
  {
    hide Next, Initial;
    var before, first := FirstOffer();
    var after, rest := Reassessment();
    runs, steps := before + after[1..], first + rest;
    forall i | 0 <= i < |steps| ensures Next(runs[i], steps[i], runs[i + 1]) {
      if i < |first| {
        assert Next(before[i], first[i], before[i + 1]);
      } else {
        var k := i - |first|;
        assert Next(after[k], rest[k], after[k + 1]);
      }
    }
  }

  // -------------------------------------------------------------------- a settled run

  /** Settling closes the activation, and a closed one is left alone: no state, no epoch and no assignment comes after it. */
  lemma SettledIsFinal(run: Run, step: Step, run': Run)
    requires Safe(run) && Next(run, step, run')
    ensures step.Settle? ==> run'.record == run.record.(state := Closed)
    ensures run.record.state == Closed ==> run'.record == run.record && run'.assignments.Keys == run.assignments.Keys
  {
    hide BoundarySignal;
  }

  // -------------------------------------------------------------- a stranded dispatch

  /** The row at this epoch is settled: a worker can neither hold it nor get it any more. */
  ghost predicate SettledAt(run: Run, epoch: nat) {
    epoch in run.assignments && !Live(run.assignments[epoch])
  }

  lemma SettledRowStep(run: Run, step: Step, run': Run, epoch: nat)
    requires SettledAt(run, epoch) && Next(run, step, run')
    ensures SettledAt(run', epoch) && run'.assignments[epoch] == run.assignments[epoch]
  {
    hide PlanActivation, BoundarySignal;
  }

  /** States that follow one another from `run`, however boundaries and workers interleave, short of settling the run. */
  ghost predicate Continues(run: Run, runs: seq<Run>, steps: seq<Step>) {
    && |runs| == |steps| + 1 && runs[0] == run
    && (forall i | 0 <= i < |steps| :: Next(runs[i], steps[i], runs[i + 1]))
    && (forall i | 0 <= i < |steps| :: !steps[i].Settle?)
  }

  ghost predicate LiveAt(run: Run, epoch: nat) {
    epoch in run.assignments && Live(run.assignments[epoch])
  }

  lemma {:induction false} SettledRowStays(run: Run, runs: seq<Run>, steps: seq<Step>, epoch: nat, i: nat)
    requires Continues(run, runs, steps) && SettledAt(run, epoch) && i < |runs|
    ensures SettledAt(runs[i], epoch)
  {
    hide Next, SettledAt;
    if i > 0 {
      SettledRowStays(run, runs, steps, epoch, i - 1);
      assert Next(runs[i - 1], steps[i - 1], runs[i]);
      SettledRowStep(runs[i - 1], steps[i - 1], runs[i], epoch);
    }
  }

  /** A reading of a pending dispatch that no assignment stands for. */
  function PendingReading(epoch: nat): Reading {
    Reading(Activation(epoch, PendingDispatch, Review, Id(0), Id(0), 0, 0), None, [], [], 0, false, false, true, false)
  }

  const OPEN_GUARDS := Guards(true, false, true, true, true, true, true)

  /** A pending dispatch with no row at its epoch can be offered: whatever its boundary was at, it reads, plans and offers. */
  lemma OfferFollows(run: Run) returns (runs: seq<Run>, steps: seq<Step>)
    requires run.record.state == PendingDispatch && run.record.epoch !in run.assignments
    ensures Continues(run, runs, steps) && LiveAt(runs[|runs| - 1], run.record.epoch)
  {
    var epoch := run.record.epoch;
    var reading := PendingReading(epoch);
    var r1 := run.(boundary := Resting);
    var r2 := r1.(boundary := Read(Plain(DispatchUndelivered)));
    var r3 := r2.(boundary := Planned(epoch));
    var r4 := r3.(assignments := run.assignments[epoch := Offered], boundary := Resting);
    assert PlanActivation(run.record, Plain(DispatchUndelivered), OPEN_GUARDS) == Some(Plan(run.record, true));
    assert Next(run, GiveUp, r1);
    assert Next(r1, ReadRecords(reading), r2);
    assert Next(r2, Advance(OPEN_GUARDS), r3);
    assert Next(r3, Offer, r4);
    hide Next;
    runs, steps := [run, r1, r2, r3, r4], [GiveUp, ReadRecords(reading), Advance(OPEN_GUARDS), Offer];
  }

  /**
   Exactly when a pending dispatch can still come to a worker at its epoch: no
   row stands at that epoch yet, or the one that stands is offered, claimed or
   unknown. The retry of a released offer reuses its identity, and the store
   answers with the released row.
   */
  lemma OfferableIff(run: Run)
    requires run.record.state == PendingDispatch
    ensures
      (exists runs, steps :: Continues(run, runs, steps) && LiveAt(runs[|runs| - 1], run.record.epoch))
      <==> !SettledAt(run, run.record.epoch)
  {
    hide Next;
    var epoch := run.record.epoch;
    if SettledAt(run, epoch) {
      forall runs, steps | Continues(run, runs, steps) ensures !LiveAt(runs[|runs| - 1], epoch) {
        SettledRowStays(run, runs, steps, epoch, |runs| - 1);
      }
    } else if epoch in run.assignments {
      assert Continues(run, [run], []) && LiveAt([run][0], epoch);
    } else {
      var runs, steps := OfferFollows(run);
    }
  }

  /** A dispatch whose offer was released before any worker claimed it. */
  ghost predicate Stranded(run: Run) {
    var r := run.record;
    && r.state == PendingDispatch && r.epoch in run.assignments && run.assignments[r.epoch] == Released
    && (run.boundary.Read? ==> run.boundary.signal == Plain(DispatchUndelivered) || run.boundary.signal.reassessment)
    && (run.boundary.Planned? ==> run.boundary.epoch == r.epoch)
  }

  /** Such a state is reached: a trigger is dispatched and offered, and the offer is released unclaimed. */
  lemma StrandedIsReached() returns (runs: seq<Run>, steps: seq<Step>)
    ensures IsRun(runs, steps) && Stranded(runs[|runs| - 1])
  {
    var before, first := FirstOffer();
    var stranded := OFFERED.(assignments := map[0 := Released]);
    assert Next(OFFERED, Move(0, Released), stranded);
    hide Next, Initial;
    runs, steps := before + [stranded], first + [Move(0, Released)];
  }

  lemma StrandedStep(run: Run, step: Step, run': Run)
    requires Stranded(run) && Next(run, step, run') && !step.Settle?
    ensures Stranded(run') && run'.record == run.record
  {
    if step.ReadRecords? {
      ReleasedReassessmentShadowed(step.reading);
    }
  }

  /** And it is left no more: no step short of settling the run gives it a new offer, a new epoch or another state. */
  lemma {:induction false} StrandedStays(run: Run, runs: seq<Run>, steps: seq<Step>, i: nat)
    requires Continues(run, runs, steps) && Stranded(run) && i < |runs|
    ensures Stranded(runs[i]) && runs[i].record == run.record
  {
    hide Next, Stranded;
    if i > 0 {
      StrandedStays(run, runs, steps, i - 1);
      assert Next(runs[i - 1], steps[i - 1], runs[i]);
      StrandedStep(runs[i - 1], steps[i - 1], runs[i]);
    }
  }
}
