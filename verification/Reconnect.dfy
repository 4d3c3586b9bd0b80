/** Retrying failed worker exchanges between scheduled passes. */
module Reconnect {
  import opened Basics

  // ------------------------------------------------------------- one pass over workers

  /** One error joined into an exchange's failure. */
  datatype Cause = NoCause | Unavailable | OtherCause

  /** The snapshot an exchange obtained: whose it is, and whether that worker takes work. */
  datatype Snapshot = Snapshot(worker: Id, accepting: bool, ready: bool)

  /** How one worker's exchange ended; `causes` is absent when it succeeded. */
  datatype Outcome = Outcome(causes: Option<seq<Cause>>, snapshot: Option<Snapshot>)

  datatype Result = Result(worker: Id, outcome: Outcome)

  /** Freshly observed workers that take no work are left to the next scheduled pass. */
  ghost predicate Retryable(r: Result) {
    && r.outcome.causes.Some?
    && (|| r.outcome.snapshot.None? || r.outcome.snapshot.value.worker != r.worker
        || (r.outcome.snapshot.value.accepting && r.outcome.snapshot.value.ready)
        || OtherCause in r.outcome.causes.value)
  }

  /** A failure waits for the scheduled pass exactly when the worker's own snapshot takes no work and nothing else failed. */
  lemma WaitsExact(r: Result)
    ensures !Retryable(r) <==>
      || r.outcome.causes == None
      || (&& r.outcome.snapshot.Some? && r.outcome.snapshot.value.worker == r.worker
          && !(r.outcome.snapshot.value.accepting && r.outcome.snapshot.value.ready)
          && forall c <- r.outcome.causes.value :: c == NoCause || c == Unavailable)
  {
  }

  method WorkerRetryable(r: Result) returns (retryable: bool)
    ensures retryable == Retryable(r)
  {
    if r.outcome.causes.None? {
      return false;
    }
    var snapshot := r.outcome.snapshot;
    if snapshot.None? || snapshot.value.worker != r.worker || (snapshot.value.accepting && snapshot.value.ready) {
      return true;
    }
    var causes := r.outcome.causes.value;
    for i := 0 to |causes|
      invariant OtherCause !in causes[..i]
    {
      assert causes[..i + 1] == causes[..i] + [causes[i]];
      if causes[i] != NoCause && causes[i] != Unavailable {
        return true;
      }
    }
    assert causes[..|causes|] == causes;
    return false;
  }

  datatype Operation = HandOn(worker: Id) | Exchange(worker: Id)

  /** What the workers answer: whether a hand-on could not even open a session, and how an exchange ends. */
  datatype Answers = Answers(unopened: set<Id>, exchanges: map<Id, Outcome>, openFailure: Outcome)

  function Selected(configured: seq<Id>, requested: set<Id>): (selected: seq<Id>)
    ensures forall w :: w in selected <==> w in configured && w in requested
  {
    if configured == [] then []
    else
      Selected(configured[..|configured| - 1], requested)
      + if configured[|configured| - 1] in requested then [configured[|configured| - 1]] else []
  }

  function HandOns(workers: seq<Id>): seq<Operation> {
    if workers == [] then [] else HandOns(workers[..|workers| - 1]) + [HandOn(workers[|workers| - 1])]
  }

  /** A worker whose session did not open at the hand-on is not dialled again for its exchange. */
  function Exchanges(workers: seq<Id>, unopened: set<Id>): seq<Operation> {
    if workers == [] then []
    else
      var w := workers[|workers| - 1];
      Exchanges(workers[..|workers| - 1], unopened) + if w in unopened then [] else [Exchange(w)]
  }

  function Answer(answers: Answers, handsOn: bool, w: Id): Outcome
    requires w in answers.exchanges
  {
    if handsOn && w in answers.unopened then answers.openFailure else answers.exchanges[w]
  }

  method SelectWorkers(configured: seq<Id>, requestedIds: seq<Id>) returns (selected: seq<Id>)
    ensures selected == Selected(configured, set w | w in requestedIds)
  {
    ghost var requested := set w | w in requestedIds;
    selected := [];
    for i := 0 to |configured|
      invariant selected == Selected(configured[..i], requested)
    {
      assert configured[..i + 1][..i] == configured[..i];
      if configured[i] in requestedIds {
        selected := selected + [configured[i]];
      }
    }
    assert configured[..|configured|] == configured;
  }

  method HandOnAll(selected: seq<Id>, answers: Answers) returns (log: seq<Operation>, failed: set<Id>)
    ensures log == HandOns(selected)
    ensures failed == set w | w in selected && w in answers.unopened
  {
    log, failed := [], {};
    for i := 0 to |selected|
      invariant log == HandOns(selected[..i])
      invariant failed == set w | w in selected[..i] && w in answers.unopened
    {
      assert selected[..i + 1][..i] == selected[..i];
      assert selected[..i + 1] == selected[..i] + [selected[i]];
      log := log + [HandOn(selected[i])];
      if selected[i] in answers.unopened {
        failed := failed + {selected[i]};
      }
    }
    assert selected[..|selected|] == selected;
  }

  /**
   One pass: every selected worker hands on before any is exchanged, a worker
   that could not be opened is reported failed without being dialled twice, and
   the results are the configured workers asked for, in configured order.
   */
  method TickWorkers(configured: seq<Id>, requestedIds: seq<Id>, handsOn: bool, answers: Answers)
    returns (results: seq<Result>, log: seq<Operation>)
    requires forall w <- configured :: w in answers.exchanges
    ensures
      var selected := Selected(configured, set w | w in requestedIds);
      && log == (if handsOn then HandOns(selected) else []) + Exchanges(selected, if handsOn then answers.unopened else {})
      && |results| == |selected|
      && forall i | 0 <= i < |selected| :: results[i] == Result(selected[i], Answer(answers, handsOn, selected[i]))
    ensures forall r <- results ::
      r.outcome == if handsOn && r.worker in answers.unopened then answers.openFailure else answers.exchanges[r.worker]
  {
    hide Selected, HandOns;
    var selected := SelectWorkers(configured, requestedIds);
    var failed: set<Id> := {};
    log := [];
    if handsOn {
      log, failed := HandOnAll(selected, answers);
    }
    ghost var handed := log;
    ghost var unopened := if handsOn then answers.unopened else {};
    results := [];
    for i := 0 to |selected|
      invariant log == handed + Exchanges(selected[..i], unopened)
      invariant |results| == i
      invariant forall j | 0 <= j < i :: results[j] == Result(selected[j], Answer(answers, handsOn, selected[j]))
    {
      var w := selected[i];
      assert selected[..i + 1][..i] == selected[..i];
      assert w in selected && (w in failed <==> w in unopened);
      if w in failed {
        results := results + [Result(w, answers.openFailure)];
      } else {
        log := log + [Exchange(w)];
        results := results + [Result(w, answers.exchanges[w])];
      }
    }
    assert selected[..|selected|] == selected;
  }

  /** `kept` are the workers at these positions, in their order, and these are all that are among `keep`. */
  ghost predicate Picks(all: seq<Id>, keep: set<Id>, kept: seq<Id>, at: seq<nat>) {
    && |at| == |kept| && (forall i, j | 0 <= i < j < |at| :: at[i] < at[j])
    && (forall i | 0 <= i < |at| :: at[i] < |all| && kept[i] == all[at[i]] && kept[i] in keep)
    && (forall k: nat | k < |all| && all[k] in keep :: k in at)
  }

  lemma PicksOneMore(init: seq<Id>, w: Id, keep: set<Id>, kept: seq<Id>, at: seq<nat>)
    requires Picks(init, keep, kept, at)
    ensures w !in keep ==> Picks(init + [w], keep, kept, at)
    ensures w in keep ==> Picks(init + [w], keep, kept + [w], at + [|init|])
  {
    assert forall k: nat | k < |init| :: (init + [w])[k] == init[k];
    assert |init| in at + [|init|] && forall k <- at :: k in at + [|init|];
  }

  /** The workers asked are the configured ones among those requested, in configured order. */
  lemma {:induction false} SelectedAre(configured: seq<Id>, requested: set<Id>) returns (at: seq<nat>)
    ensures Picks(configured, requested, Selected(configured, requested), at)
  {
    at := [];
    if configured != [] {
      hide Picks;
      var init, w := configured[..|configured| - 1], configured[|configured| - 1];
      assert configured == init + [w];
      at := SelectedAre(init, requested);
      PicksOneMore(init, w, requested, Selected(init, requested), at);
      if w in requested {
        at := at + [|init|];
      }
    }
  }

  lemma {:induction false} HandOnsAre(workers: seq<Id>)
    ensures |HandOns(workers)| == |workers| && forall i | 0 <= i < |workers| :: HandOns(workers)[i] == HandOn(workers[i])
  {
    if workers != [] {
      HandOnsAre(workers[..|workers| - 1]);
    }
  }

  lemma {:induction false} ExchangesAre(workers: seq<Id>, reachable: set<Id>, unopened: set<Id>)
      returns (kept: seq<Id>, at: seq<nat>)
    requires forall w <- workers :: w in reachable <==> w !in unopened
    ensures Picks(workers, reachable, kept, at) && |Exchanges(workers, unopened)| == |kept|
    ensures forall i | 0 <= i < |kept| :: Exchanges(workers, unopened)[i] == Exchange(kept[i])
  {
    kept, at := [], [];
    if workers != [] {
      hide Picks;
      var init, w := workers[..|workers| - 1], workers[|workers| - 1];
      assert workers == init + [w];
      kept, at := ExchangesAre(init, reachable, unopened);
      PicksOneMore(init, w, reachable, kept, at);
      if w !in unopened {
        kept, at := kept + [w], at + [|init|];
      }
    } else {
      assert Picks([], reachable, [], []);
    }
  }

  /**
   What a pass does, in order: where hand-ons are made, one for each worker asked,
   and then one exchange for each of them whose session opened, or for each
   of them where none is made.
   */
  lemma PassExact(selected: seq<Id>, handsOn: bool, unopened: set<Id>, reachable: set<Id>)
      returns (kept: seq<Id>, at: seq<nat>)
    requires forall w <- selected :: w in reachable <==> !(handsOn && w in unopened)
    ensures Picks(selected, reachable, kept, at)
    ensures
      var log := (if handsOn then HandOns(selected) else []) + Exchanges(selected, if handsOn then unopened else {});
      var first := if handsOn then |selected| else 0;
      && |log| == first + |kept|
      && (forall i | 0 <= i < first :: log[i] == HandOn(selected[i]))
      && (forall i | 0 <= i < |kept| :: log[first + i] == Exchange(kept[i]))
  {
    hide Picks;
    HandOnsAre(selected);
    kept, at := ExchangesAre(selected, reachable, if handsOn then unopened else {});
  }

  // ----------------------------------------------------------------- tracking failures

  const MAX_DELAY := 5

  ghost function Failing(results: seq<Result>): set<Id> {
    set r | r in results && Retryable(r) :: r.worker
  }

  method RetryableWorkers(results: seq<Result>) returns (ids: seq<Id>)
    ensures forall w :: w in ids <==> w in Failing(results)
  {
    hide Retryable;
    ids := [];
    for i := 0 to |results|
      invariant forall w :: w in ids <==> exists r <- results[..i] :: Retryable(r) && r.worker == w
    {
      assert results[..i + 1] == results[..i] + [results[i]];
      var retryable := WorkerRetryable(results[i]);
      if retryable {
        ids := ids + [results[i].worker];
      }
    }
    assert results[..|results|] == results;
  }

  /** Whose exchange failed retryably, read from the results or from the workers asked: the same. */
  lemma FailingAre(selected: seq<Id>, results: seq<Result>, handsOn: bool, answers: Answers)
    requires forall w <- selected :: w in answers.exchanges
    requires |results| == |selected|
    requires forall i | 0 <= i < |selected| :: results[i] == Result(selected[i], Answer(answers, handsOn, selected[i]))
    ensures Failing(results) == set w | w in selected && Retryable(Result(w, Answer(answers, handsOn, w)))
  {
    hide Retryable, Answer;
    forall w | w in selected && Retryable(Result(w, Answer(answers, handsOn, w))) ensures w in Failing(results) {
      var i :| 0 <= i < |selected| && selected[i] == w;
      assert results[i] in results;
    }
    forall w | w in Failing(results) ensures w in selected && Retryable(Result(w, Answer(answers, handsOn, w))) {
      var r :| r in results && Retryable(r) && r.worker == w;
      var i :| 0 <= i < |results| && results[i] == r;
    }
  }

  class Tracker {
    const configured: seq<Id>
    var pending: bool
    // Absent before the first pass, when all configured workers are meant.
    var workerIds: Option<seq<Id>>
    var delay: nat
    // Workers whose most recent exchange failed retryably.
    ghost var failed: set<Id>

    /** The retry list is exactly the workers whose latest exchange failed retryably. */
    ghost predicate Tracks()
      reads this
    {
      && (forall w <- failed :: w in configured)
      && (workerIds.Some? ==>
            && (forall w :: w in workerIds.value <==> w in failed)
            && (pending <==> failed != {}))
    }

    constructor (workers: seq<Id>)
      ensures configured == workers && pending && workerIds == None && delay == 0 && failed == {} && Tracks()
    {
      configured, pending, workerIds, delay, failed := workers, true, None, 0, {};
    }

    method Record(results: seq<Result>)
      modifies this`pending, this`workerIds, this`delay
      ensures workerIds.Some? && forall w :: w in workerIds.value <==> w in Failing(results)
      ensures pending == (Failing(results) != {})
      ensures delay == if pending then old(delay) else 0
    {
      var ids := RetryableWorkers(results);
      workerIds := Some(ids);
      pending := |ids| > 0;
      assert pending ==> ids[0] in Failing(results);
      if !pending {
        delay := 0;
      }
    }

    /** A pass over `ids`: whoever it exchanged is judged anew, everybody else's latest exchange stands. */
    method Pass(ids: seq<Id>, handsOn: bool, answers: Answers)
      requires forall w <- configured :: w in answers.exchanges
      requires Tracks() && (forall w <- failed :: w in ids)
      modifies this
      ensures Tracks() && workerIds.Some?
      ensures failed == set w | w in configured && w in ids && Retryable(Result(w, Answer(answers, handsOn, w)))
      ensures delay == if pending then old(delay) else 0
    {
      hide Retryable, Answer, Selected;
      var results, _ := TickWorkers(configured, ids, handsOn, answers);
      ghost var asked := set w | w in ids;
      FailingAre(Selected(configured, asked), results, handsOn, answers);
      failed := (failed - asked) + Failing(results);
      Record(results);
    }

    /** The scheduled pass over every configured worker. */
    method Tick(handsOn: bool, answers: Answers)
      requires forall w <- configured :: w in answers.exchanges
      requires Tracks()
      modifies this
      ensures Tracks() && workerIds.Some?
      ensures failed == set w | w in configured && Retryable(Result(w, Answer(answers, handsOn, w)))
      ensures delay == if pending then old(delay) else 0
    {
      Pass(configured, handsOn, answers);
    }

    /** The retry asks exactly the failed workers again, or everyone before the first pass. */
    method Retry(handsOn: bool, answers: Answers)
      requires forall w <- configured :: w in answers.exchanges
      requires Tracks()
      modifies this
      ensures Tracks() && workerIds.Some?
      ensures
        var again := if old(workerIds).None? then (set w | w in configured) else old(failed);
        failed == set w | w in again && Retryable(Result(w, Answer(answers, handsOn, w)))
      ensures delay == if pending then old(delay) else 0
    {
      if workerIds.Some? {
        Pass(workerIds.value, handsOn, answers);
      } else {
        Pass(configured, handsOn, answers);
      }
    }

    method NextDelay() returns (d: nat)
      modifies this`delay
      ensures d == delay == Backoff(old(delay))
    {
      if delay == 0 {
        delay := 1;
      } else {
        delay := delay * 2;
        if delay > MAX_DELAY {
          delay := MAX_DELAY;
        }
      }
      d := delay;
    }
  }

  function Backoff(delay: nat): nat {
    if delay == 0 then 1 else if delay * 2 > MAX_DELAY then MAX_DELAY else delay * 2
  }

  // ------------------------------------------------------------------- the serve loop

  /** A timer firing, with what the workers then answer. */
  datatype Fire = RetryTimer(answers: Answers) | Scheduled(answers: Answers)

  /** The loop's state: whether the retry timer runs, its delay, and whose latest exchange failed retryably. */
  datatype Timer = Timer(armed: bool, delay: nat, started: bool, failed: set<Id>)

  const STARTUP := Timer(true, 1, false, {})

  ghost predicate Pending(t: Timer) {
    !t.started || t.failed != {}
  }

  ghost function FailingAmong(configured: seq<Id>, asked: set<Id>, handsOn: bool, answers: Answers): set<Id> {
    set w | w in configured && w in asked && w in answers.exchanges && Retryable(Result(w, Answer(answers, handsOn, w)))
  }

  ghost function Recorded(t: Timer, failed: set<Id>): Timer {
    t.(started := true, failed := failed, delay := if failed == {} then 0 else t.delay)
  }

  /** One firing. A retry timer that is put away does not fire. */
  ghost function Fired(configured: seq<Id>, handsOn: bool, t: Timer, fire: Fire): Timer {
    var all := set w | w in configured;
    match fire
    case RetryTimer(answers) =>
      if !t.armed then t
      else
        var t' := Recorded(t, FailingAmong(configured, if t.started then t.failed else all, handsOn, answers));
        if t'.failed != {} && t'.delay < MAX_DELAY then t'.(delay := Backoff(t'.delay))
        else t'.(armed := false, delay := 0)
    case Scheduled(answers) =>
      var t' := Recorded(t, FailingAmong(configured, all, handsOn, answers));
      if t'.failed == {} then t'.(armed := false, delay := 0)
      else if t'.armed then t'
      else t'.(armed := true, delay := Backoff(t'.delay))
  }

  ghost function Play(configured: seq<Id>, handsOn: bool, t: Timer, fires: seq<Fire>): Timer {
    if fires == [] then t
    else Fired(configured, handsOn, Play(configured, handsOn, t, fires[..|fires| - 1]), fires[|fires| - 1])
  }

  /** The retries made while these timers fire. */
  ghost function Retries(configured: seq<Id>, handsOn: bool, t: Timer, fires: seq<Fire>): nat {
    if fires == [] then 0
    else
      var init, last := fires[..|fires| - 1], fires[|fires| - 1];
      Retries(configured, handsOn, t, init)
      + if last.RetryTimer? && Play(configured, handsOn, t, init).armed then 1 else 0
  }

  // ---------------------------------------------------------------- what it keeps

  /** While the retry timer runs, something is pending and the delay is one of the backoff's steps. */
  ghost predicate Sound(t: Timer) {
    && (t.armed ==> Pending(t) && t.delay in {1, 2, 4, 5})
    && (!t.armed ==> t.delay == 0)
  }

  /** Retries left before the timer is put away until the next scheduled pass. */
  function Left(t: Timer): nat {
    if !t.armed then 0 else if t.delay == 1 then 4 else if t.delay == 2 then 3 else if t.delay == 4 then 2 else 1
  }

  /** The worker was asked and its exchange failed retryably. */
  ghost predicate FailsNow(configured: seq<Id>, asked: set<Id>, handsOn: bool, answers: Answers, w: Id) {
    && w in configured && w in asked && w in answers.exchanges
    && Retryable(Result(w, if handsOn && w in answers.unopened then answers.openFailure else answers.exchanges[w]))
  }

  /**
   What a firing does. A retry asks the failed workers again, or everyone at
   first, and goes on at twice the delay, at most five seconds, exactly while
   some fail and five seconds are not reached; a scheduled pass asks everyone, and
   runs the timer exactly while some fail, from one second on if it did not run.
   */
  lemma FiredExact(configured: seq<Id>, handsOn: bool, t: Timer, fire: Fire)
    requires Sound(t)
    ensures
      var t', all := Fired(configured, handsOn, t, fire), set w | w in configured;
      if fire.RetryTimer? && !t.armed then t' == t
      else
        var asked := if fire.RetryTimer? && t.started then t.failed else all;
        && t'.started && (forall w :: w in t'.failed <==> FailsNow(configured, asked, handsOn, fire.answers, w))
        && (t'.armed <==> t'.failed != {} && (fire.RetryTimer? ==> t.delay < 5))
        && t'.delay ==
             if !t'.armed then 0
             else if fire.RetryTimer? then (if t.delay == 4 then 5 else 2 * t.delay)
             else if t.armed then t.delay
             else 1
  {
    hide Retryable;
  }

  lemma FiredIsSound(configured: seq<Id>, handsOn: bool, t: Timer, fire: Fire)
    requires Sound(t)
    ensures Sound(Fired(configured, handsOn, t, fire))
    ensures fire.RetryTimer? && t.armed ==> Left(Fired(configured, handsOn, t, fire)) < Left(t)
  {
    hide FailingAmong;
  }

  lemma {:induction false} PlayIsSound(configured: seq<Id>, handsOn: bool, t: Timer, fires: seq<Fire>)
    requires Sound(t)
    ensures Sound(Play(configured, handsOn, t, fires))
  {
    if fires != [] {
      hide Sound, Fired;
      PlayIsSound(configured, handsOn, t, fires[..|fires| - 1]);
      FiredIsSound(configured, handsOn, Play(configured, handsOn, t, fires[..|fires| - 1]), fires[|fires| - 1]);
    }
  }

  lemma {:induction false} StretchIsBounded(configured: seq<Id>, handsOn: bool, t: Timer, fires: seq<Fire>)
    requires Sound(t) && forall f <- fires :: f.RetryTimer?
    ensures Retries(configured, handsOn, t, fires) + Left(Play(configured, handsOn, t, fires)) <= Left(t)
  {
    if fires != [] {
      hide Sound, Fired, Left;
      var init, last := fires[..|fires| - 1], fires[|fires| - 1];
      assert last in fires && forall f <- init :: f in fires;
      StretchIsBounded(configured, handsOn, t, init);
      PlayIsSound(configured, handsOn, t, init);
      FiredIsSound(configured, handsOn, Play(configured, handsOn, t, init), last);
      if !Play(configured, handsOn, t, init).armed {
        Disarmed(configured, handsOn, Play(configured, handsOn, t, init), last);
      }
    }
  }

  lemma Disarmed(configured: seq<Id>, handsOn: bool, t: Timer, fire: Fire)
    requires fire.RetryTimer? && !t.armed
    ensures Fired(configured, handsOn, t, fire) == t
  {
  }

  /**
   Whatever fires and whatever the workers answer, from start-up on: in every
   stretch of firings without a scheduled pass at most four retries are made.
   */
  lemma FourRetriesAtMost(configured: seq<Id>, handsOn: bool, fires: seq<Fire>, i: nat, j: nat)
    requires i <= j <= |fires| && forall k | i <= k < j :: fires[k].RetryTimer?
    ensures Retries(configured, handsOn, Play(configured, handsOn, STARTUP, fires[..i]), fires[i..j]) <= 4
  {
    PlayIsSound(configured, handsOn, STARTUP, fires[..i]);
    forall f <- fires[i..j] ensures f.RetryTimer? {
      var k :| 0 <= k < j - i && fires[i..j][k] == f;
      assert f == fires[i + k];
    }
    StretchIsBounded(configured, handsOn, Play(configured, handsOn, STARTUP, fires[..i]), fires[i..j]);
  }

  lemma FailsAgain(w: Id, t: Timer, answers: Answers)
    requires t.armed && t.delay > 0 && (t.started ==> t.failed == {w})
    requires w in answers.exchanges && Retryable(Result(w, answers.exchanges[w]))
    ensures Fired([w], false, t, RetryTimer(answers)) ==
      if t.delay < MAX_DELAY then Timer(true, Backoff(t.delay), true, {w}) else Timer(false, 0, true, {w})
  {
    hide Retryable;
    assert (set v | v in [w]) == {w};
    assert FailingAmong([w], {w}, false, answers) == {w};
  }

  /** Four is reached: a worker that keeps failing is retried after one, two, four and five seconds, and then no more. */
  lemma FourRetriesReached(w: Id, answers: Answers)
    requires w in answers.exchanges && Retryable(Result(w, answers.exchanges[w]))
    ensures
      var fires := [RetryTimer(answers), RetryTimer(answers), RetryTimer(answers), RetryTimer(answers)];
      Retries([w], false, STARTUP, fires) == 4 && !Play([w], false, STARTUP, fires).armed
  {
    hide Fired, Retryable;
    var f := RetryTimer(answers);
    assert [f, f, f, f][..3] == [f, f, f] && [f, f, f][..2] == [f, f] && [f, f][..1] == [f] && [f][..0] == [];
    FailsAgain(w, STARTUP, answers);
    FailsAgain(w, Timer(true, 2, true, {w}), answers);
    FailsAgain(w, Timer(true, 4, true, {w}), answers);
    FailsAgain(w, Timer(true, 5, true, {w}), answers);
    assert Play([w], false, STARTUP, []) == STARTUP && Retries([w], false, STARTUP, []) == 0;
    assert Play([w], false, STARTUP, [f]) == Timer(true, 2, true, {w});
    assert Play([w], false, STARTUP, [f, f]) == Timer(true, 4, true, {w});
    assert Play([w], false, STARTUP, [f, f, f]) == Timer(true, 5, true, {w});
    assert Retries([w], false, STARTUP, [f, f]) == 2;
  }

  class Boundaries {
    const tracker: Tracker
    const handsOn: bool
    var armed: bool

    ghost function State(): Timer
      reads this, tracker
    {
      Timer(armed, tracker.delay, tracker.workerIds.Some?, tracker.failed)
    }

    ghost predicate Valid()
      reads this, tracker
    {
      tracker.Tracks() && tracker.pending == Pending(State())
    }

    constructor (workers: seq<Id>, handOns: bool)
      ensures Valid() && fresh(tracker) && tracker.configured == workers && State() == STARTUP
    {
      var t := new Tracker(workers);
      var _ := t.NextDelay();
      tracker, handsOn, armed := t, handOns, true;
    }

    method OnRetry(answers: Answers)
      requires forall w <- tracker.configured :: w in answers.exchanges
      requires Valid() && armed
      modifies this, tracker
      ensures Valid() && State() == Fired(tracker.configured, handsOn, old(State()), RetryTimer(answers))
    {
      tracker.Retry(handsOn, answers);
      ghost var all := set w | w in tracker.configured;
      assert tracker.failed ==
        FailingAmong(tracker.configured, if old(State()).started then old(State()).failed else all, handsOn, answers);
      if tracker.pending && tracker.delay < MAX_DELAY {
        var _ := tracker.NextDelay();
      } else {
        armed := false;
        tracker.delay := 0;
      }
    }

    /** A scheduled pass arms the timer at one second, leaves it running, or puts it away when nothing is pending. */
    method OnScheduled(answers: Answers)
      requires forall w <- tracker.configured :: w in answers.exchanges
      requires Valid() && Sound(State())
      modifies this, tracker
      ensures Valid() && State() == Fired(tracker.configured, handsOn, old(State()), Scheduled(answers))
      ensures armed == tracker.pending
      ensures tracker.delay == if !tracker.pending then 0 else if old(armed) then old(tracker.delay) else 1
    {
      tracker.Tick(handsOn, answers);
      ghost var all := set w | w in tracker.configured;
      assert tracker.failed == FailingAmong(tracker.configured, all, handsOn, answers);
      if tracker.pending && !armed {
        var _ := tracker.NextDelay();
        armed := true;
      } else if !tracker.pending {
        armed := false;
        tracker.delay := 0;
      }
    }

    /** Serves any timers, counting the retries made. */
    method Serve(fires: seq<Fire>) returns (retries: nat)
      requires forall f <- fires, w <- tracker.configured :: w in f.answers.exchanges
      requires Valid() && Sound(State())
      modifies this, tracker
      ensures Valid() && State() == Play(tracker.configured, handsOn, old(State()), fires)
      ensures retries == Retries(tracker.configured, handsOn, old(State()), fires)
    {
      hide Fired, Sound, FailingAmong;
      retries := 0;
      for i := 0 to |fires|
        invariant Valid() && State() == Play(tracker.configured, handsOn, old(State()), fires[..i])
        invariant retries == Retries(tracker.configured, handsOn, old(State()), fires[..i])
      {
        assert fires[i] in fires && fires[..i + 1][..i] == fires[..i];
        PlayIsSound(tracker.configured, handsOn, old(State()), fires[..i]);
        match fires[i] {
          case RetryTimer(answers) =>
            if armed {
              OnRetry(answers);
              retries := retries + 1;
            } else {
              Disarmed(tracker.configured, handsOn, State(), fires[i]);
            }
          case Scheduled(answers) => OnScheduled(answers);
        }
      }
      assert fires[..|fires|] == fires;
    }
  }
}
