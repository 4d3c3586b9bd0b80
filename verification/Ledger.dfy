/**
 The ledger's background passes under every interleaving: ticks that start one,
 the pass itself as it runs and tears down, and the stop that waits for it.
 */
module Ledger {
  import opened Basics

  /**
   How far one pass has come. A tick carries it from winning the running flag to
   the goroutine it starts; from `Executing` on the goroutine runs by itself, and
   its deferred calls cancel its context, clear the flag and leave the wait group.
   */
  datatype Stage =
    | Claimed | Added | Slotted
    | Executing | Finished | Cancelled | Released | Gone

  datatype Stop = NotCalled | ReadSlot(slot: Option<nat>) | Waiting | Returned

  /** The shared fields, and every pass so far by its number. */
  datatype State = State(
    running: bool, group: nat, slot: Option<nat>, cancelled: set<nat>, passes: seq<Stage>, stop: Stop)

  const INITIAL := State(false, 0, None, {}, [], NotCalled)

  datatype Step =
    | Claim                 // a tick wins the flag; a tick that loses it returns and changes nothing
    | Add(p: nat)
    | SetSlot(p: nat)
    | Spawn(p: nat)         // the tick returns
    | Finish(p: nat)
    | Cancel(p: nat)
    | Release(p: nat)
    | Leave(p: nat)
    | StopReads
    | StopCancels
    | StopReturns

  predicate At(s: State, p: nat, stage: Stage) {
    p < |s.passes| && s.passes[p] == stage
  }

  function Move(s: State, p: nat, stage: Stage): State
    requires p < |s.passes|
  {
    s.(passes := s.passes[p := stage])
  }

  ghost predicate Next(s: State, step: Step, s': State) {
    match step
    case Claim => !s.running && s' == s.(running := true, passes := s.passes + [Claimed])
    case Add(p) => At(s, p, Claimed) && s' == Move(s, p, Added).(group := s.group + 1)
    case SetSlot(p) => At(s, p, Added) && s' == Move(s, p, Slotted).(slot := Some(p))
    case Spawn(p) => At(s, p, Slotted) && s' == Move(s, p, Executing)
    case Finish(p) => At(s, p, Executing) && s' == Move(s, p, Finished)
    case Cancel(p) => At(s, p, Finished) && s' == Move(s, p, Cancelled).(cancelled := s.cancelled + {p})
    case Release(p) => At(s, p, Cancelled) && s' == Move(s, p, Released).(running := false)
    case Leave(p) => At(s, p, Released) && s.group > 0 && s' == Move(s, p, Gone).(group := s.group - 1)
    case StopReads => s.stop == NotCalled && s' == s.(stop := ReadSlot(s.slot))
    case StopCancels =>
      && s.stop.ReadSlot?
      && s' == s.(stop := Waiting,
                  cancelled := if s.stop.slot.Some? then s.cancelled + {s.stop.slot.value} else s.cancelled)
    case StopReturns => s.stop == Waiting && s.group == 0 && s' == s.(stop := Returned)
  }

  ghost predicate IsRun(states: seq<State>, steps: seq<Step>) {
    && |states| == |steps| + 1 && states[0] == INITIAL
    && forall i | 0 <= i < |steps| :: Next(states[i], steps[i], states[i + 1])
  }

  // ------------------------------------------------------------ what every step keeps

  /** The pass holds the running flag. */
  predicate Holds(stage: Stage) {
    stage in {Claimed, Added, Slotted, Executing, Finished, Cancelled}
  }

  /** The pass is counted in the wait group. */
  predicate Counted(stage: Stage) {
    stage !in {Claimed, Gone}
  }

  function Count(passes: seq<Stage>): nat {
    if passes == [] then 0
    else Count(passes[..|passes| - 1]) + if Counted(passes[|passes| - 1]) then 1 else 0
  }

  ghost predicate Sound(s: State) {
    && (forall p, q | 0 <= p < q < |s.passes| :: !(Holds(s.passes[p]) && Holds(s.passes[q])))
    && (s.running <==> exists p :: 0 <= p < |s.passes| && Holds(s.passes[p]))
    && (forall p | 0 <= p < |s.passes| && s.passes[p] in {Slotted, Executing, Finished} :: s.slot == Some(p))
    && s.group == Count(s.passes)
  }

  lemma {:induction false} CountMoves(passes: seq<Stage>, p: nat, stage: Stage)
    requires p < |passes|
    ensures Count(passes[p := stage])
      == Count(passes) + (if Counted(stage) then 1 else 0) - (if Counted(passes[p]) then 1 else 0)
  {
    var n := |passes| - 1;
    if p < n {
      assert passes[p := stage][..n] == passes[..n][p := stage];
      CountMoves(passes[..n], p, stage);
    } else {
      assert passes[p := stage][..n] == passes[..n];
    }
  }

  lemma {:induction false} CountedIsPositive(passes: seq<Stage>, p: nat)
    requires p < |passes| && Counted(passes[p])
    ensures Count(passes) > 0
  {
    if p < |passes| - 1 {
      CountedIsPositive(passes[..|passes| - 1], p);
    }
  }

  lemma ClaimKeepsSound(s: State, s': State)
    requires Sound(s) && Next(s, Claim, s')
    ensures Sound(s')
  {
    assert s'.passes[..|s.passes|] == s.passes;
    assert Holds(s'.passes[|s.passes|]);
    assert forall p | 0 <= p < |s.passes| :: s'.passes[p] == s.passes[p];
  }

  /** A pass moving on: it still holds the flag unless this is its release. */
  lemma MoveKeepsSound(s: State, p: nat, stage: Stage, s': State)
    requires Sound(s) && p < |s.passes| && s'.passes == s.passes[p := stage]
    requires Holds(stage) ==> Holds(s.passes[p])
    requires s'.running == (s.running && !(Holds(s.passes[p]) && !Holds(stage)))
    requires s'.slot == (if stage == Slotted then Some(p) else s.slot)
    requires stage in {Executing, Finished} ==> s.passes[p] in {Slotted, Executing}
    requires s'.group == s.group + (if Counted(stage) then 1 else 0) - (if Counted(s.passes[p]) then 1 else 0)
    ensures Sound(s')
  {
    hide Count;
    CountMoves(s.passes, p, stage);
    assert forall q | 0 <= q < |s.passes| && q != p :: s'.passes[q] == s.passes[q];
    if s'.running {
      var q :| 0 <= q < |s.passes| && Holds(s.passes[q]);
      assert Holds(s'.passes[q]);
    }
  }

  lemma StepKeepsSound(s: State, step: Step, s': State)
    requires Sound(s) && Next(s, step, s')
    ensures Sound(s')
  {
    match step
    case Claim => ClaimKeepsSound(s, s');
    case Add(p) => MoveKeepsSound(s, p, Added, s');
    case SetSlot(p) => MoveKeepsSound(s, p, Slotted, s');
    case Spawn(p) => MoveKeepsSound(s, p, Executing, s');
    case Finish(p) => MoveKeepsSound(s, p, Finished, s');
    case Cancel(p) => MoveKeepsSound(s, p, Cancelled, s');
    case Release(p) => MoveKeepsSound(s, p, Released, s');
    case Leave(p) => MoveKeepsSound(s, p, Gone, s');
    case _ =>
  }

  lemma {:induction false} RunIsSound(states: seq<State>, steps: seq<Step>, i: nat)
    requires IsRun(states, steps) && i < |states|
    ensures Sound(states[i])
  {
    if i > 0 {
      RunIsSound(states, steps, i - 1);
      StepKeepsSound(states[i - 1], steps[i - 1], states[i]);
    }
  }

  /**
   Whatever the interleaving, at most one pass executes at any time, even while
   older ones are still tearing down, and the cancel slot is that pass's.
   */
  lemma OnePassExecutes(states: seq<State>, steps: seq<Step>, i: nat, p: nat, q: nat)
    requires IsRun(states, steps) && i < |states|
    requires At(states[i], p, Executing) && At(states[i], q, Executing)
    ensures p == q && states[i].slot == Some(p)
  {
    RunIsSound(states, steps, i);
  }

  /** A pass leaving the wait group always finds itself counted: the count never goes below zero. */
  lemma LeaveIsCounted(states: seq<State>, steps: seq<Step>, i: nat, p: nat)
    requires IsRun(states, steps) && i < |states| && At(states[i], p, Released)
    ensures states[i].group > 0
  {
    RunIsSound(states, steps, i);
    CountedIsPositive(states[i].passes, p);
  }

  /** The step a pass is at. */
  function Onward(stage: Stage, p: nat): Step
    requires stage != Gone
  {
    match stage
    case Claimed => Add(p)
    case Added => SetSlot(p)
    case Slotted => Spawn(p)
    case Executing => Finish(p)
    case Finished => Cancel(p)
    case Cancelled => Release(p)
    case Released => Leave(p)
  }

  /** No pass is ever stuck: whatever else is under way, each that is not gone can take its next step, to another stage. */
  lemma EveryPassMoves(states: seq<State>, steps: seq<Step>, i: nat, p: nat) returns (s': State)
    requires IsRun(states, steps) && i < |states| && p < |states[i].passes| && states[i].passes[p] != Gone
    ensures Next(states[i], Onward(states[i].passes[p], p), s')
    ensures |s'.passes| == |states[i].passes| && s'.passes[p] != states[i].passes[p]
  {
    var s := states[i];
    if s.passes[p] == Released {
      LeaveIsCounted(states, steps, i, p);
    }
    match s.passes[p] {
      case Claimed => s' := Move(s, p, Added).(group := s.group + 1);
      case Added => s' := Move(s, p, Slotted).(slot := Some(p));
      case Slotted => s' := Move(s, p, Executing);
      case Executing => s' := Move(s, p, Finished);
      case Finished => s' := Move(s, p, Cancelled).(cancelled := s.cancelled + {p});
      case Cancelled => s' := Move(s, p, Released).(running := false);
      case Released => s' := Move(s, p, Gone).(group := s.group - 1);
    }
  }

  /** Every pass that has let go of its context has cancelled it. */
  ghost predicate ContextsEnd(s: State) {
    forall p | 0 <= p < |s.passes| && s.passes[p] in {Cancelled, Released, Gone} :: p in s.cancelled
  }

  lemma ContextsEndStep(s: State, step: Step, s': State)
    requires ContextsEnd(s) && Next(s, step, s')
    ensures ContextsEnd(s')
  {
  }

  lemma {:induction false} NoContextLeaks(states: seq<State>, steps: seq<Step>, i: nat)
    requires IsRun(states, steps) && i < |states|
    ensures ContextsEnd(states[i])
  {
    hide Next, ContextsEnd;
    if i > 0 {
      NoContextLeaks(states, steps, i - 1);
      assert Next(states[i - 1], steps[i - 1], states[i]);
      ContextsEndStep(states[i - 1], steps[i - 1], states[i]);
    } else {
      assert ContextsEnd(INITIAL) by { NothingOpen(); }
    }
  }

  lemma NothingOpen()
    ensures ContextsEnd(INITIAL)
  {
  }

  // ------------------------------------------------------------------------- stop

  /** No tick is under way: every pass was handed to its goroutine. */
  predicate TicksReturned(s: State) {
    forall p | 0 <= p < |s.passes| :: s.passes[p] !in {Claimed, Added, Slotted}
  }

  /** Once stop holds or has used the slot it read, an executing pass is cancelled or about to be. */
  ghost predicate StopReaches(s: State) {
    forall p | 0 <= p < |s.passes| && s.passes[p] == Executing ::
      p in s.cancelled || s.stop == ReadSlot(Some(p))
  }

  lemma {:induction false} QuietStop(states: seq<State>, steps: seq<Step>, i: nat, j: nat)
    requires IsRun(states, steps) && i < |steps| && i < j < |states|
    requires steps[i] == StopReads && TicksReturned(states[i])
    requires forall k | i <= k < |steps| :: steps[k] != Claim
    ensures TicksReturned(states[j]) && StopReaches(states[j])
    ensures states[j].stop != NotCalled
    decreases j
  {
    RunIsSound(states, steps, i);
    if i + 1 < j {
      QuietStop(states, steps, i, j - 1);
    }
    assert Next(states[j - 1], steps[j - 1], states[j]);
  }

  /**
   A stop that begins after the last tick returned cancels whatever pass is still
   executing, and once it returns every pass is gone for good.
   */
  lemma StopEndsEverything(states: seq<State>, steps: seq<Step>, i: nat, j: nat, p: nat)
    requires IsRun(states, steps) && i < |steps| && i < j < |states|
    requires steps[i] == StopReads && TicksReturned(states[i])
    requires forall k | i <= k < |steps| :: steps[k] != Claim
    requires p < |states[j].passes|
    ensures states[j].stop in {Waiting, Returned} && states[j].passes[p] == Executing ==> p in states[j].cancelled
    ensures states[j].stop == Returned ==> states[j].passes[p] == Gone
  {
    QuietStop(states, steps, i, j);
    if states[j].stop == Returned {
      var r := ReturnedAt(states, steps, j);
      assert Next(states[i], steps[i], states[i + 1]);
      QuietStop(states, steps, i, r);
      GroupIsEmpty(states, steps, r);
      GoneStays(states, steps, r, j);
    }
  }

  /** The state in which stop found the group empty. */
  lemma {:induction false} ReturnedAt(states: seq<State>, steps: seq<Step>, j: nat) returns (r: nat)
    requires IsRun(states, steps) && j < |states| && states[j].stop == Returned
    ensures r < j && states[r].stop == Waiting && states[r].group == 0
    ensures forall k | r < k <= j :: states[k].stop == Returned
  {
    assert Next(states[j - 1], steps[j - 1], states[j]);
    if states[j - 1].stop == Returned {
      r := ReturnedAt(states, steps, j - 1);
    } else {
      r := j - 1;
    }
  }

  lemma GroupIsEmpty(states: seq<State>, steps: seq<Step>, i: nat)
    requires IsRun(states, steps) && i < |states| && states[i].group == 0
    ensures forall p | 0 <= p < |states[i].passes| :: states[i].passes[p] in {Claimed, Gone}
  {
    RunIsSound(states, steps, i);
    forall p | 0 <= p < |states[i].passes| ensures !Counted(states[i].passes[p]) {
      if Counted(states[i].passes[p]) {
        CountedIsPositive(states[i].passes, p);
      }
    }
  }

  lemma {:induction false} GoneStays(states: seq<State>, steps: seq<Step>, i: nat, j: nat)
    requires IsRun(states, steps) && i <= j < |states|
    requires forall p | 0 <= p < |states[i].passes| :: states[i].passes[p] == Gone
    requires forall k | i <= k < |steps| :: steps[k] != Claim
    ensures states[j].passes == states[i].passes
    decreases j
  {
    if i < j {
      GoneStays(states, steps, i, j - 1);
      assert Next(states[j - 1], steps[j - 1], states[j]);
    }
  }

  /**
   When stop returns nothing executes, whoever is ticking. What can still execute
   afterwards without a new tick is exactly a pass whose tick had won the flag
   and not yet joined the wait group: from there it runs on to execute, and with
   no such tick every pass stays gone.
   */
  lemma StopReturnsExact(states: seq<State>, steps: seq<Step>, i: nat, p: nat)
    requires IsRun(states, steps) && i < |steps| && steps[i] == StopReturns && p < |states[i].passes|
    ensures states[i].passes[p] in {Claimed, Gone}
    ensures states[i].passes[p] == Claimed ==>
      var s := states[i + 1];
      exists s1, s2, s3 :: Next(s, Add(p), s1) && Next(s1, SetSlot(p), s2) && Next(s2, Spawn(p), s3) && At(s3, p, Executing)
  {
    assert Next(states[i], steps[i], states[i + 1]);
    GroupIsEmpty(states, steps, i);
    if states[i].passes[p] == Claimed {
      var s := states[i + 1];
      var s1 := Move(s, p, Added).(group := s.group + 1);
      var s2 := Move(s1, p, Slotted).(slot := Some(p));
      var s3 := Move(s2, p, Executing);
      assert Next(s, Add(p), s1) && Next(s1, SetSlot(p), s2) && Next(s2, Spawn(p), s3) && At(s3, p, Executing);
    }
  }

  lemma StopIsFinal(states: seq<State>, steps: seq<Step>, i: nat, j: nat, p: nat)
    requires IsRun(states, steps) && i < |steps| && steps[i] == StopReturns && i < j < |states|
    requires forall q | 0 <= q < |states[i].passes| :: states[i].passes[q] != Claimed
    requires forall k | i <= k < |steps| :: steps[k] != Claim
    requires p < |states[j].passes|
    ensures states[j].passes[p] == Gone
  {
    assert Next(states[i], steps[i], states[i + 1]);
    GroupIsEmpty(states, steps, i);
    GoneStays(states, steps, i, j);
  }

  /** A tick caught between winning the flag and joining the group lets stop return ahead of its pass. */
  lemma StopMissesClaimedTick() returns (states: seq<State>, steps: seq<Step>)
    ensures IsRun(states, steps)
    ensures exists i, j :: 0 <= i < j < |steps| && steps[i] == Claim && steps[j] == StopReads
    ensures forall k | 1 <= k < |steps| :: steps[k] != Claim
    ensures states[|states| - 1].stop == Returned && At(states[|states| - 1], 0, Executing)
  {
    steps := [Claim, StopReads, StopCancels, StopReturns, Add(0), SetSlot(0), Spawn(0)];
    var s1 := INITIAL.(running := true, passes := [Claimed]);
    var s2 := s1.(stop := ReadSlot(None));
    var s3 := s2.(stop := Waiting);
    var s4 := s3.(stop := Returned);
    var s5 := s4.(passes := [Added], group := 1);
    var s6 := s5.(passes := [Slotted], slot := Some(0));
    states := [INITIAL, s1, s2, s3, s4, s5, s6, s6.(passes := [Executing])];
    assert steps[0] == Claim && steps[1] == StopReads;
    assert [Claimed][0 := Added] == [Added] && [Added][0 := Slotted] == [Slotted];
    assert [Slotted][0 := Executing] == [Executing];
  }
}
