/**
 How often an activation gives way to ordinary work over the whole life of the
 records: calls of the arbitration, with other writers of the store in between.
 */
module YieldingBound {
  import opened Assignments
  import opened Basics
  import opened Yielding

  type Rows = map<Id, Assignment>

  // ------------------------------------------------------------ committing a plan

  /** A plan gives an attempt an assignment only while it has none, or a released one to re-arm. */
  predicate Assignable(rows: Rows, attempt: Id) {
    attempt in rows ==> rows[attempt].state == Released
  }

  function Offer(p: Proposal, now: int): Assignment
    requires p.pool.Some?
  {
    Assignment(p.worker, p.pool.value, now, Offered)
  }

  predicate Distinct(plan: seq<Proposal>) {
    forall i, j | 0 <= i < j < |plan| :: plan[i].attempt != plan[j].attempt
  }

  predicate Names(plan: seq<Proposal>, attempt: Id) {
    exists p <- plan :: p.attempt == attempt
  }

  /** `rows'` is `rows` with every item of the batch made or re-armed in place, and nothing else changed. */
  ghost predicate Commits(rows: Rows, batch: seq<Proposal>, now: int, rows': Rows) {
    && Distinct(batch)
    && (forall p <- batch :: p.pool.Some? && Assignable(rows, p.attempt))
    && (forall p <- batch :: p.attempt in rows' && rows'[p.attempt] == Offer(p, now))
    && (forall id <- rows.Keys :: !Names(batch, id) ==> id in rows' && rows'[id] == rows[id])
    && (forall id <- rows'.Keys :: id in rows || Names(batch, id))
  }

  lemma CommitOneMore(rows: Rows, batch: seq<Proposal>, now: int, rows': Rows, p: Proposal)
    requires Commits(rows, batch, now, rows') && p.pool.Some?
    requires !Names(batch, p.attempt) && Assignable(rows', p.attempt)
    ensures Commits(rows, batch + [p], now, rows'[p.attempt := Offer(p, now)])
  {
    assert forall q <- batch :: q.attempt != p.attempt;
    assert forall id :: Names(batch + [p], id) ==> Names(batch, id) || id == p.attempt;
    assert forall id :: Names(batch, id) ==> Names(batch + [p], id) by {
      assert forall q <- batch :: q in batch + [p];
    }
    assert p in batch + [p];
  }

  /**
   Committing a plan: refused as a whole when it is empty, names an attempt twice
   or has an item without a route, else every item is committed whose attempt no other fence
   refuses and whose row is missing or released.
   */
  method CommitAssignmentPlan(rows: Rows, plan: seq<Proposal>, refused: set<Id>, now: int)
    returns (ok: bool, rows': Rows, committed: seq<Proposal>)
    ensures ok <==> plan != [] && Distinct(plan) && forall p <- plan :: p.pool.Some?
    ensures !ok ==> rows' == rows && committed == []
    ensures ok ==> Commits(rows, committed, now, rows')
    ensures ok ==> forall p :: p in committed <==> p in plan && p.attempt !in refused && Assignable(rows, p.attempt)
  {
    rows', committed := rows, [];
    if plan == [] {
      return false, rows, [];
    }
    var seen: set<Id> := {};
    for i := 0 to |plan|
      invariant Distinct(plan[..i]) && forall p <- plan[..i] :: p.pool.Some?
      invariant forall id :: id in seen <==> Names(plan[..i], id)
      invariant Commits(rows, committed, now, rows')
      invariant forall p :: p in committed <==> p in plan[..i] && p.attempt !in refused && Assignable(rows, p.attempt)
    {
      hide Commits;
      var p := plan[i];
      assert plan[..i + 1] == plan[..i] + [p];
      if p.pool.None? {
        return false, rows, [];
      }
      if p.attempt in seen {
        return false, rows, [];
      }
      seen := seen + {p.attempt};
      if p.attempt in refused {
        continue;
      }
      if p.attempt in rows' && rows'[p.attempt].state != Released {
        continue;
      }
      CommitOneMore(rows, committed, now, rows', p);
      rows' := rows'[p.attempt := Offer(p, now)];
      committed := committed + [p];
    }
    assert plan[..|plan|] == plan;
    ok := true;
  }

  // ------------------------------------------------------------- writes of the store

  /**
   What other writers do to the records: create an attempt, move an assignment
   to another state (a release, a claim, a recovery), offer an activation under
   its new attempt, or commit an ordinary plan.
   */
  datatype Write =
    | AddAttempt(attempt: Attempt)
    | SetState(id: Id, state: AssignmentState)
    | OfferActivation(id: Id, assignment: Assignment)
    | CommitPlan(batch: seq<Proposal>, now: int)

  predicate Fresh(records: Records, id: Id) {
    id !in records.assignments && forall a <- records.attempts :: a.id != id
  }

  ghost predicate Writes(records: Records, write: Write, records': Records) {
    match write
    case AddAttempt(attempt) =>
      Fresh(records, attempt.id) && records' == records.(attempts := records.attempts + [attempt])
    case SetState(id, state) =>
      && id in records.assignments
      && records' == records.(assignments := records.assignments[id := records.assignments[id].(state := state)])
    case OfferActivation(id, assignment) =>
      && Fresh(records, id)
      && records' == Records(records.attempts + [Attempt(id, true)], records.assignments[id := assignment])
    case CommitPlan(batch, now) =>
      records'.attempts == records.attempts && Commits(records.assignments, batch, now, records'.assignments)
  }

  /** The plan itself makes or re-arms an ordinary assignment that marks. */
  ghost predicate MakesMark(records: Records, candidate: Candidate, batch: seq<Proposal>, now: int) {
    exists p <- batch :: p.pool.Some? && !OfActivation(records, p.attempt) && Holds(candidate, Offer(p, now))
  }

  /** Some marking assignment is not among those the plan names. */
  ghost predicate KeepsMark(records: Records, candidate: Candidate, batch: seq<Proposal>) {
    exists id <- records.assignments.Keys :: Marks(records, candidate, id) && !Names(batch, id)
  }

  /** The one write that takes the marker away: a plan that re-arms every marking assignment elsewhere. */
  ghost predicate Loses(records: Records, candidate: Candidate, write: Write) {
    && write.CommitPlan? && AlreadyYielded(records, candidate)
    && !KeepsMark(records, candidate, write.batch) && !MakesMark(records, candidate, write.batch, write.now)
  }

  lemma SameAttempts(records: Records, records': Records)
    requires records.attempts == records'.attempts
    ensures forall id :: OfActivation(records', id) <==> OfActivation(records, id)
  {
  }

  lemma NewAttempt(records: Records, records': Records, attempt: Attempt)
    requires Fresh(records, attempt.id) && records'.attempts == records.attempts + [attempt]
    ensures forall id :: id != attempt.id ==> (OfActivation(records', id) <==> OfActivation(records, id))
    ensures OfActivation(records', attempt.id) <==> attempt.activation
  {
    assert forall a <- records.attempts :: a in records'.attempts;
    assert attempt in records'.attempts;
  }

  /** After a plan the marker stands exactly when a marking assignment was left alone or the plan makes one. */
  lemma MarkAfterPlan(records: Records, candidate: Candidate, batch: seq<Proposal>, now: int, records': Records)
    requires Writes(records, CommitPlan(batch, now), records')
    ensures AlreadyYielded(records', candidate)
      <==> KeepsMark(records, candidate, batch) || MakesMark(records, candidate, batch, now)
  {
    SameAttempts(records, records');
    hide OfActivation, Holds;
    if KeepsMark(records, candidate, batch) {
      var id :| id in records.assignments && Marks(records, candidate, id) && !Names(batch, id);
      assert Marks(records', candidate, id);
    } else if MakesMark(records, candidate, batch, now) {
      var p :| p in batch && p.pool.Some? && !OfActivation(records, p.attempt) && Holds(candidate, Offer(p, now));
      assert Marks(records', candidate, p.attempt);
    }
    if AlreadyYielded(records', candidate) {
      var id :| id in records'.assignments && Marks(records', candidate, id);
      if Names(batch, id) {
        var p :| p in batch && p.attempt == id;
      } else {
        assert Marks(records, candidate, id);
      }
    }
  }

  lemma MarkAfterOther(records: Records, candidate: Candidate, write: Write, records': Records)
    requires Writes(records, write, records') && !write.CommitPlan?
    ensures AlreadyYielded(records', candidate) <==> AlreadyYielded(records, candidate)
  {
    match write {
      case AddAttempt(attempt) => NewAttempt(records, records', attempt);
      case SetState(_, _) => SameAttempts(records, records');
      case OfferActivation(id, _) => NewAttempt(records, records', Attempt(id, true));
    }
    hide OfActivation;
    assert forall id <- records.assignments.Keys ::
      id in records'.assignments && (Marks(records', candidate, id) <==> Marks(records, candidate, id));
    assert forall id <- records'.assignments.Keys ::
      id in records.assignments || !Marks(records', candidate, id);
  }

  /** A standing marker survives a write exactly when the write does not re-arm every marking assignment elsewhere. */
  lemma MarkSurvives(records: Records, candidate: Candidate, write: Write, records': Records)
    requires Writes(records, write, records') && AlreadyYielded(records, candidate)
    ensures AlreadyYielded(records', candidate) <==> !Loses(records, candidate, write)
  {
    hide Writes;
    if write.CommitPlan? {
      MarkAfterPlan(records, candidate, write.batch, write.now, records');
    } else {
      MarkAfterOther(records, candidate, write, records');
    }
  }

  // ------------------------------------------------------------------ calls over time

  /**
   One arbitration call. `arbitration` is what the contenders came to, `batch`
   what the constrained planner committed, `wakes` whether settled waits were
   resumed ahead of the candidate, and `exhausted` whether its worker or pool is
   full afterwards.
   */
  datatype Call = Call(now: int, limited: bool, contenders: seq<Proposal>, arbitration: Arbitration, wakes: bool,
                       batch: seq<Proposal>, exhausted: bool)

  /** Older ordinary work was found, and neither the marker nor a resumed wait settled the call before it. */
  ghost predicate Replans(records: Records, candidate: Candidate, call: Call) {
    && !AlreadyYielded(records, candidate) && call.arbitration.Arbitration? && !call.wakes
    && call.arbitration.allowed != {}
  }

  /** The contenders are ordinary; the planner runs only to replan, and commits only what its constraint admits. */
  ghost predicate CallStep(records: Records, candidate: Candidate, call: Call, records': Records) {
    && (forall p <- call.contenders :: !OfActivation(records, p.attempt))
    && IsArbitration(candidate, call.limited, call.contenders, call.arbitration)
    && (call.batch != [] ==> Replans(records, candidate, call))
    && (forall p <- call.batch :: call.arbitration.Arbitration? && Admits(call.arbitration.allowed, p))
    && Writes(records, CommitPlan(call.batch, call.now), records')
  }

  /** Whether the activation gives up this boundary: also when the replanned work only finds its worker or pool full. */
  ghost predicate Yields(records: Records, candidate: Candidate, call: Call) {
    && !AlreadyYielded(records, candidate) && call.arbitration.Arbitration?
    && (call.wakes || (Replans(records, candidate, call) && call.exhausted))
  }

  /** The batch leaves a marker: it was committed when the activation was ready, on its worker or in its named pool. */
  ghost predicate LeavesMark(candidate: Candidate, call: Call) {
    && call.batch != [] && call.now >= candidate.age.at
    && (candidate.pool != NO_POOL || exists p <- call.batch :: p.worker == candidate.worker)
  }

  lemma BatchShares(records: Records, candidate: Candidate, call: Call, records': Records, p: Proposal)
    requires CallStep(records, candidate, call, records') && p in call.batch
    ensures !OfActivation(records, p.attempt)
    ensures p.worker == candidate.worker || (call.limited && p.pool == Some(candidate.pool))
    ensures exists q <- call.contenders ::
      q.attempt == p.attempt && q.ready.Some? && Older(Age(q.ready.value, p.attempt), candidate.age)
  {
    hide IsArbitration, AlreadyYielded, OfActivation, Writes;
    var q := AdmittedIsOlder(candidate, call.limited, call.contenders, call.arbitration, p);
  }

  /** A batch leaves the marker exactly when it comes at or after the ready time, on the worker or in a named pool. */
  lemma BatchMarks(records: Records, candidate: Candidate, call: Call, records': Records)
    requires CallStep(records, candidate, call, records') && call.batch != []
    ensures AlreadyYielded(records', candidate) <==> LeavesMark(candidate, call)
  {
    MarkAfterPlan(records, candidate, call.batch, call.now, records');
    assert !KeepsMark(records, candidate, call.batch);
    hide IsArbitration, OfActivation, Writes, AlreadyYielded, KeepsMark;
    forall p <- call.batch
      ensures p.pool.Some? && !OfActivation(records, p.attempt)
      ensures Holds(candidate, Offer(p, call.now)) <==>
        call.now >= candidate.age.at && (p.worker == candidate.worker || candidate.pool != NO_POOL)
    {
      BatchShares(records, candidate, call, records', p);
    }
    assert call.batch[0] in call.batch;
  }

  /**
   Everything the replanning pass makes or re-arms holds the candidate's worker
   or its limited pool, and its attempt is one of the contenders there, strictly
   older than the candidate.
   */
  lemma OnlyOlderSharersGoAhead(records: Records, candidate: Candidate, call: Call, records': Records, id: Id)
    requires CallStep(records, candidate, call, records') && id in records'.assignments
    requires id in records.assignments ==> records'.assignments[id] != records.assignments[id]
    ensures var a := records'.assignments[id];
      a.createdAt == call.now && (a.worker == candidate.worker || (call.limited && a.pool == candidate.pool))
    ensures exists q <- call.contenders ::
      q.attempt == id && q.ready.Some? && Older(Age(q.ready.value, id), candidate.age)
  {
    hide IsArbitration, OfActivation, AlreadyYielded;
    var p :| p in call.batch && p.attempt == id;
    BatchShares(records, candidate, call, records', p);
  }

  /**
   When a call yields: without a marker, with every rival's age known, exactly
   when a resumed wait goes ahead, or a rival became ready before the candidate
   and the worker or pool is full afterwards. And only then, and without a
   resumed wait, is anything planned.
   */
  lemma YieldsExact(records: Records, candidate: Candidate, call: Call, records': Records)
    requires CallStep(records, candidate, call, records')
    ensures
      var known := forall p <- call.contenders | Wants(candidate, call.limited, p) :: p.ready.Some?;
      var older := exists p <- call.contenders :: Wants(candidate, call.limited, p) && ReadyBefore(p, candidate.age);
      && (Yields(records, candidate, call) <==>
            !AlreadyYielded(records, candidate) && known && (call.wakes || (older && call.exhausted)))
      && (call.batch != [] ==> !AlreadyYielded(records, candidate) && known && !call.wakes && older)
      && (AlreadyYielded(records, candidate) || !known || call.wakes || !older ==> records' == records)
  {
    ArbitrationExact(candidate, call.limited, call.contenders, call.arbitration);
    hide IsArbitration, AlreadyYielded, IsCutoff, Wants, ReadyBefore, OfActivation;
    if call.arbitration.Arbitration? {
      assert call.arbitration.allowed != {} <==>
        exists p <- call.contenders :: Wants(candidate, call.limited, p) && ReadyBefore(p, candidate.age) by {
        AllowedAny(candidate, call.limited, call.contenders, call.arbitration.allowed);
      }
    }
    if call.batch == [] {
      assert records'.assignments == records.assignments by { EmptyPlan(records.assignments, call.now, records'.assignments); }
    }
  }

  lemma AllowedAny(candidate: Candidate, limited: bool, contenders: seq<Proposal>, allowed: set<Key>)
    requires forall p <- contenders :: Wants(candidate, limited, p) ==> p.pool.Some?
    requires forall k :: k in allowed <==>
      exists p <- contenders :: Wants(candidate, limited, p) && ReadyBefore(p, candidate.age)
        && k == Key(p.attempt, p.worker, p.pool.value)
    ensures allowed != {} <==>
      exists p <- contenders :: Wants(candidate, limited, p) && ReadyBefore(p, candidate.age)
  {
    hide ReadyBefore;
    if p :| p in contenders && Wants(candidate, limited, p) && ReadyBefore(p, candidate.age) {
      assert Key(p.attempt, p.worker, p.pool.value) in allowed;
    }
    if allowed != {} {
      var k :| k in allowed;
    }
  }

  lemma EmptyPlan(rows: Rows, now: int, rows': Rows)
    requires Commits(rows, [], now, rows')
    ensures rows' == rows
  {
    assert forall id :: !Names([], id);
  }

  // ---------------------------------------------------------------------- the bound

  datatype Event = Called(call: Call) | Wrote(write: Write)

  ghost predicate EventStep(records: Records, candidate: Candidate, event: Event, records': Records) {
    match event
    case Called(call) => CallStep(records, candidate, call, records')
    case Wrote(write) => Writes(records, write, records')
  }

  /** Calls for one candidate over the whole life of the records, restarts and other writers in between. */
  ghost predicate IsHistory(states: seq<Records>, events: seq<Event>, candidate: Candidate) {
    && |states| == |events| + 1
    && forall i | 0 <= i < |events| :: EventStep(states[i], candidate, events[i], states[i + 1])
  }

  ghost predicate LosesAt(records: Records, candidate: Candidate, event: Event) {
    event.Wrote? && Loses(records, candidate, event.write)
  }

  ghost predicate YieldsAt(records: Records, candidate: Candidate, event: Event) {
    event.Called? && Yields(records, candidate, event.call)
  }

  /** A call never takes the marker away: while it stands the call commits nothing. */
  lemma CallKeepsMark(records: Records, candidate: Candidate, call: Call, records': Records)
    requires CallStep(records, candidate, call, records') && AlreadyYielded(records, candidate)
    ensures call.batch == [] && !Yields(records, candidate, call) && AlreadyYielded(records', candidate)
  {
    MarkAfterPlan(records, candidate, call.batch, call.now, records');
    hide IsArbitration, Writes;
    assert forall id :: !Names([], id);
  }

  lemma EventKeepsMark(records: Records, candidate: Candidate, event: Event, records': Records)
    requires EventStep(records, candidate, event, records') && AlreadyYielded(records, candidate)
    ensures AlreadyYielded(records', candidate) <==> !LosesAt(records, candidate, event)
  {
    hide CallStep, Writes, AlreadyYielded, Loses;
    match event
    case Called(call) => CallKeepsMark(records, candidate, call, records');
    case Wrote(write) => MarkSurvives(records, candidate, write, records');
  }

  /** From where it stands, the marker stands at every later state exactly when no write in between loses it. */
  lemma {:induction false} MarkStandsIff(states: seq<Records>, events: seq<Event>, candidate: Candidate, i: nat, j: nat)
    requires IsHistory(states, events, candidate) && i <= j <= |events| && AlreadyYielded(states[i], candidate)
    ensures (forall k | i <= k <= j :: AlreadyYielded(states[k], candidate))
      <==> (forall k | i <= k < j :: !LosesAt(states[k], candidate, events[k]))
    decreases j - i
  {
    hide EventStep, AlreadyYielded, LosesAt;
    if i < j {
      EventKeepsMark(states[i], candidate, events[i], states[i + 1]);
      if !LosesAt(states[i], candidate, events[i]) {
        MarkStandsIff(states, events, candidate, i + 1, j);
      }
    }
  }

  /**
   Bounded yielding: once an ordinary assignment made since the ready time holds
   the candidate's worker or named pool, no later call admits a batch or yields
   to one or to a wake, unless a plan in between re-armed every such assignment
   elsewhere. So without such a plan at most one batch that leaves a marker ever
   goes ahead of the candidate, whatever restarts lie in between.
   */
  lemma BoundedYielding(states: seq<Records>, events: seq<Event>, candidate: Candidate, i: nat, j: nat)
    requires IsHistory(states, events, candidate) && i < j < |events| && events[i].Called? && events[j].Called?
    requires AlreadyYielded(states[i], candidate) || LeavesMark(candidate, events[i].call)
    requires forall k | i < k < j :: !LosesAt(states[k], candidate, events[k])
    ensures events[j].call.batch == [] && !Yields(states[j], candidate, events[j].call)
  {
    assert EventStep(states[i], candidate, events[i], states[i + 1]);
    hide AlreadyYielded, LosesAt, LeavesMark, CallStep, Yields;
    if AlreadyYielded(states[i], candidate) {
      CallKeepsMark(states[i], candidate, events[i].call, states[i + 1]);
    } else {
      LeftMark(states[i], candidate, events[i].call, states[i + 1]);
    }
    MarkStandsIff(states, events, candidate, i + 1, j);
    CallKeepsMark(states[j], candidate, events[j].call, states[j + 1]);
  }

  lemma LeftMark(records: Records, candidate: Candidate, call: Call, records': Records)
    requires CallStep(records, candidate, call, records') && LeavesMark(candidate, call)
    ensures AlreadyYielded(records', candidate)
  {
    hide CallStep, AlreadyYielded;
    BatchMarks(records, candidate, call, records');
  }

  // ----------------------------------------------------------- when the bound does not hold

  /** A call with one older contender on the candidate's worker and in its pool, and what became of it. */
  function CallFor(p: Proposal, now: int, wakes: bool, batch: seq<Proposal>): Call
    requires p.pool.Some? && p.ready.Some?
  {
    Call(now, true, [p], Arbitration({KeyOf(p)}, AgeOf(p), AgeOf(p)), wakes, batch, !wakes)
  }

  /** An ordinary attempt older than the candidate that wants its worker and its pool. */
  predicate Contends(records: Records, candidate: Candidate, p: Proposal) {
    && MayPrecede(candidate, true, p) && p.worker == candidate.worker && p.pool == Some(candidate.pool)
    && !OfActivation(records, p.attempt)
  }

  lemma AloneIsArbitrated(candidate: Candidate, p: Proposal)
    requires MayPrecede(candidate, true, p) && p.worker == candidate.worker && p.pool == Some(candidate.pool)
    ensures IsArbitration(candidate, true, [p], Arbitration({KeyOf(p)}, AgeOf(p), AgeOf(p)))
  {
    assert p in [p];
    assert (set q | q in [p] && OnWorker(candidate, q)) == {p};
    assert (set q | q in [p] && InPool(candidate, true, q)) == {p};
    assert (set q | q in [p] && MayPrecede(candidate, true, q) :: KeyOf(q)) == {KeyOf(p)};
  }

  /** While no marker stands, an older contender goes ahead of the candidate and the candidate yields to it. */
  lemma GoesAhead(records: Records, candidate: Candidate, p: Proposal, now: int)
    requires Contends(records, candidate, p) && Assignable(records.assignments, p.attempt)
    requires !AlreadyYielded(records, candidate)
    ensures
      var records' := records.(assignments := records.assignments[p.attempt := Offer(p, now)]);
      var call := CallFor(p, now, false, [p]);
      CallStep(records, candidate, call, records') && Yields(records, candidate, call)
  {
    AloneIsArbitrated(candidate, p);
    hide OfActivation, AlreadyYielded, IsArbitration;
    assert p in [p] && KeyOf(p) in {KeyOf(p)};
    var rows := records.assignments;
    assert Commits(rows, [], now, rows) && !Names([], p.attempt) && [] + [p] == [p];
    CommitOneMore(rows, [], now, rows, p);
  }

  lemma FreshId(records: Records) returns (id: Id)
    ensures Fresh(records, id) && !OfActivation(records, id)
  {
    var n: nat := 0;
    var ids := records.assignments.Keys + set a <- records.attempts :: a.id;
    var left := ids;
    while left != {}
      invariant left <= ids && forall x <- ids - left :: x.key < n
      decreases left
    {
      var x :| x in left;
      left := left - {x};
      n := if x.key < n then n else x.key + 1;
    }
    id := Id(n);
    assert forall a <- records.attempts :: a.id in ids;
  }

  ghost predicate MayGiveWay(records: Records, candidate: Candidate) {
    exists call: Call, records': Records ::
      CallStep(records, candidate, call, records') && call.batch != [] && Yields(records, candidate, call)
  }

  /** The marker alone decides whether a call can still give way to a batch. */
  lemma MayGiveWayIff(records: Records, candidate: Candidate)
    ensures MayGiveWay(records, candidate) <==> !AlreadyYielded(records, candidate)
  {
    if AlreadyYielded(records, candidate) {
      forall call: Call, records': Records | CallStep(records, candidate, call, records')
        ensures !Yields(records, candidate, call)
      {
        CallKeepsMark(records, candidate, call, records');
      }
    } else {
      var id := FreshId(records);
      var p := Proposal(id, candidate.worker, Some(candidate.pool), Some(candidate.age.at - 1));
      GoesAhead(records, candidate, p, 0);
    }
  }

  /** So a write to marked records lets a later call give way again exactly when it loses the marker. */
  lemma GivesWayAgainIff(records: Records, candidate: Candidate, write: Write, records': Records)
    requires Writes(records, write, records') && AlreadyYielded(records, candidate)
    ensures MayGiveWay(records', candidate) <==> Loses(records, candidate, write)
  {
    MarkSurvives(records, candidate, write, records');
    MayGiveWayIff(records', candidate);
  }

  /** Every released assignment that marks alone is lost by re-arming it where it does not hold the bottleneck. */
  lemma RearmLoses(records: Records, candidate: Candidate, p: Proposal, now: int)
    requires p.attempt in records.assignments && records.assignments[p.attempt].state == Released
    requires forall id <- records.assignments.Keys :: Marks(records, candidate, id) <==> id == p.attempt
    requires p.pool.Some? && !Holds(candidate, Offer(p, now))
    ensures
      var records' := records.(assignments := records.assignments[p.attempt := Offer(p, now)]);
      Writes(records, CommitPlan([p], now), records') && Loses(records, candidate, CommitPlan([p], now))
  {
    hide OfActivation, Holds, Marks;
    assert p in [p];
    var rows := records.assignments;
    assert Commits(rows, [], now, rows) && !Names([], p.attempt) && [] + [p] == [p];
    CommitOneMore(rows, [], now, rows, p);
  }

  /**
   A plan that re-arms the marking assignment elsewhere lets a second marking
   batch go ahead: one at 12, its row released and re-armed on another worker
   and pool at 13, and another at 14.
   */
  lemma RearmedYieldsTwice() returns (states: seq<Records>, events: seq<Event>, candidate: Candidate)
    ensures IsHistory(states, events, candidate) && |events| == 4 && events[0].Called? && events[3].Called?
    ensures LeavesMark(candidate, events[0].call) && Yields(states[0], candidate, events[0].call)
    ensures LosesAt(states[2], candidate, events[2])
    ensures LeavesMark(candidate, events[3].call) && Yields(states[3], candidate, events[3].call)
  {
    candidate := Candidate(Age(10, Id(0)), Id(1), Id(2));
    var p, q := Proposal(Id(3), Id(1), Some(Id(2)), Some(4)), Proposal(Id(4), Id(1), Some(Id(2)), Some(4));
    var elsewhere := Proposal(Id(3), Id(5), Some(Id(6)), Some(4));
    var r0 := Records([], map[]);
    var r1 := Records([], map[][Id(3) := Offer(p, 12)]);
    var r2 := Records([], r1.assignments[Id(3) := Offer(p, 12).(state := Released)]);
    var r3 := Records([], r2.assignments[Id(3) := Offer(elsewhere, 13)]);
    var r4 := Records([], r3.assignments[Id(4) := Offer(q, 14)]);
    GoesAhead(r0, candidate, p, 12);
    RearmLoses(r2, candidate, elsewhere, 13);
    GoesAhead(r3, candidate, q, 14);
    hide CallStep, Yields, OfActivation, Commits, Loses;
    states := [r0, r1, r2, r3, r4];
    events := [Called(CallFor(p, 12, false, [p])), Wrote(SetState(Id(3), Released)),
               Wrote(CommitPlan([elsewhere], 13)), Called(CallFor(q, 14, false, [q]))];
  }

  /**
   The marker is the assignment's own creation time, so a clock behind the ready
   time leaves none: two batches in a row then go ahead of the same candidate.
   */
  lemma BehindClockYieldsTwice() returns (states: seq<Records>, events: seq<Event>, candidate: Candidate)
    ensures IsHistory(states, events, candidate) && |events| == 2
    ensures forall i | 0 <= i < 2 :: YieldsAt(states[i], candidate, events[i]) && events[i].call.batch != []
  {
    candidate := Candidate(Age(10, Id(0)), Id(1), Id(2));
    var p, q := Proposal(Id(3), Id(1), Some(Id(2)), Some(4)), Proposal(Id(4), Id(1), Some(Id(2)), Some(4));
    var r0 := Records([], map[]);
    var r1 := Records([], map[][Id(3) := Offer(p, 5)]);
    var r2 := Records([], r1.assignments[Id(4) := Offer(q, 6)]);
    GoesAhead(r0, candidate, p, 5);
    GoesAhead(r1, candidate, q, 6);
    hide CallStep, Yields, OfActivation;
    states := [r0, r1, r2];
    events := [Called(CallFor(p, 5, false, [p])), Called(CallFor(q, 6, false, [q]))];
  }

  /**
   Nothing bounds the calls that yield without leaving a marker: from any records
   without one, and for every number of calls, each may give way to a resumed
   wait, or to older work that only finds the worker or pool full.
   */
  lemma UnmarkedYieldsUnbounded(records: Records, candidate: Candidate, p: Proposal, now: int, wakes: bool, n: nat)
    returns (states: seq<Records>, events: seq<Event>)
    requires Contends(records, candidate, p) && !AlreadyYielded(records, candidate)
    ensures IsHistory(states, events, candidate) && |events| == n && states[0] == records
    ensures forall i | 0 <= i < n :: YieldsAt(states[i], candidate, events[i]) && events[i].call.wakes == wakes
  {
    AloneIsArbitrated(candidate, p);
    hide OfActivation, AlreadyYielded, IsArbitration;
    var call := CallFor(p, now, wakes, []);
    assert forall id :: !Names([], id);
    assert CallStep(records, candidate, call, records) && Yields(records, candidate, call) by {
      assert KeyOf(p) in call.arbitration.allowed;
    }
    states, events := seq(n + 1, _ => records), seq(n, _ => Called(call));
  }
}
