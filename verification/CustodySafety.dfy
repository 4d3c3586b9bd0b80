/** What every pass over a worker's uploads keeps, whatever the worker answers. */
module CustodySafety {
  import opened Basics
  import opened WorkerCustody

  // ------------------------------------------------ why an upload is acknowledged

  /** A checkpoint is acknowledged right after it was fetched and then imported or rejected for good. */
  ghost predicate ScanReason(log: seq<Action>, i: nat)
    requires i < |log| && log[i].Acked?
  {
    && 2 <= i && log[i - 2].DidFetch? && log[i - 2].manifest.id == log[i].id
    && log[i - 1] in {DidImport(log[i].id), DidReject(log[i].id)}
  }

  /**
   A result is acknowledged right after it was judged to belong to a released,
   unknown or other-epoch assignment, or judged importable, fetched, and then
   imported, rejected for good or found superseded.
   */
  ghost predicate ResultReason(log: seq<Action>, i: nat)
    requires i < |log| && log[i].Acked?
  {
    var id := log[i].id;
    || (1 <= i && log[i - 1] == Judged(id, Discard))
    || (3 <= i && log[i - 3] == Judged(id, ImportNow) && log[i - 2] == FetchedResult(id)
        && log[i - 1] in {DidImport(id), DidReject(id), DidSupersede(id)})
  }

  datatype Kind = OfScan | OfResults | OfAny

  ghost predicate Justified(log: seq<Action>, kind: Kind) {
    forall i: nat | i < |log| && log[i].Acked? ::
      (kind != OfResults && ScanReason(log, i)) || (kind != OfScan && ResultReason(log, i))
  }

  lemma JustifiedConcat(left: seq<Action>, right: seq<Action>, kind: Kind)
    requires Justified(left, kind) && Justified(right, kind)
    ensures Justified(left + right, kind)
  {
    var both := left + right;
    forall i: nat | i < |both| && both[i].Acked?
      ensures (kind != OfResults && ScanReason(both, i)) || (kind != OfScan && ResultReason(both, i))
    {
      if i < |left| {
        assert left[i].Acked? && forall k | 0 <= k <= i :: both[k] == left[k];
      } else {
        var j := i - |left|;
        assert right[j].Acked? && forall k | 0 <= k <= j :: both[|left| + k] == right[k];
      }
    }
  }

  /** A worker announced this manifest in some round, or holds it. */
  ghost predicate Held(w: Worker, manifest: Manifest) {
    match w
    case Scripted(script) => exists r | 0 <= r < |script| :: script[r].poll == Announced(manifest)
    case Faithful(queue) => exists u :: u in queue && u.manifest == manifest
  }

  lemma PolledIsHeld(w: Worker, round: nat, excluded: seq<Id>)
    ensures Poll(w, round, excluded).Announced? ==> Held(w, Poll(w, round, excluded).manifest)
  {
    if w.Faithful? {
      FirstNotInQueue(w.queue, excluded);
    } else if round < |w.script| {
      assert Line(w, round) == w.script[round];
    }
  }

  lemma FirstNotInQueue(queue: seq<Upload>, excluded: seq<Id>)
    ensures FirstNot(queue, excluded).Announced? ==>
      exists u :: u in queue && u.manifest == FirstNot(queue, excluded).manifest
  {
    if queue != [] {
      FirstNotInQueue(queue[1..], excluded);
      if queue[0].manifest.id !in excluded {
        assert queue[0] in queue;
      }
    }
  }

  lemma GivenUpHolds(w: Worker, id: Id, manifest: Manifest)
    requires Held(GivenUp(w, id), manifest)
    ensures Held(w, manifest)
  {
    if w.Faithful? {
      WithoutIsPart(w.queue, id);
    }
  }

  lemma WithoutIsPart(queue: seq<Upload>, id: Id)
    ensures forall u :: u in Without(queue, id) ==> u in queue
  {
    if queue != [] && queue[0].manifest.id != id {
      WithoutIsPart(queue[1..], id);
    }
  }

  function Fetches(log: seq<Action>): seq<Manifest> {
    if log == [] then []
    else (if log[0].DidFetch? then [log[0].manifest] else []) + Fetches(log[1..])
  }

  lemma {:induction false} FetchesConcat(left: seq<Action>, right: seq<Action>)
    ensures Fetches(left + right) == Fetches(left) + Fetches(right)
  {
    if left == [] {
      assert left + right == right;
    } else {
      var both := left + right;
      assert both[0] == left[0] && both[1..] == left[1..] + right;
      FetchesConcat(left[1..], right);
    }
  }

  ghost predicate Distinct(fetched: seq<Manifest>) {
    forall i, j | 0 <= i < j < |fetched| :: fetched[i].id != fetched[j].id
  }

  ghost predicate NoResults(log: seq<Action>) {
    forall a <- log :: !a.FetchedResult?
  }

  ghost predicate FetchesOne(log: seq<Action>, manifest: Manifest) {
    Justified(log, OfScan) && Fetches(log) == [manifest] && NoResults(log)
  }

  lemma FetchAlone(manifest: Manifest)
    ensures FetchesOne([DidFetch(manifest)], manifest)
  {
    assert [DidFetch(manifest)][1..] == [];
  }

  lemma FetchSettled(manifest: Manifest, settled: Action)
    requires settled in {DidImport(manifest.id), DidReject(manifest.id)}
    ensures FetchesOne([DidFetch(manifest), settled, Acked(manifest.id)], manifest)
  {
    var log := [DidFetch(manifest), settled, Acked(manifest.id)];
    assert Fetches([Acked(manifest.id)]) == [] by { assert [Acked(manifest.id)][1..] == []; }
    assert log[1..] == [settled, Acked(manifest.id)] && log[1..][1..] == [Acked(manifest.id)];
  }

  lemma HandleSafe(w: Worker, round: nat, manifest: Manifest)
    ensures FetchesOne(Handle(w, round, manifest).1, manifest)
  {
    hide FetchesOne, Fetch, Import, Acknowledges;
    FetchAlone(manifest);
    FetchSettled(manifest, DidImport(manifest.id));
    FetchSettled(manifest, DidReject(manifest.id));
  }

  /** The worker announced this very manifest, and to a hand-on it said it is a continuation. */
  ghost predicate MayFetch(w: Worker, manifest: Manifest, handOn: bool) {
    Held(w, manifest) && (handOn ==> manifest.continuation)
  }

  ghost predicate RoundIsSafe(w: Worker, seen: set<Id>, handOn: bool, end: RoundEnd) {
    && Justified(end.log, OfScan) && NoResults(end.log)
    && |Fetches(end.log)| <= 1
    && forall m <- Fetches(end.log) :: m.id !in seen && MayFetch(w, m, handOn) && (end.next.Onward? ==> m.id in end.next.seen)
  }

  lemma RoundSafe(w: Worker, round: nat, excluded: seq<Id>, seen: set<Id>, handOn: bool)
    ensures RoundIsSafe(w, seen, handOn, OneRound(w, round, excluded, seen, handOn))
  {
    hide Handle, Held, Poll, Justified, Fetches, NoResults;
    NothingDone();
    PolledIsHeld(w, round, excluded);
    var polled := Poll(w, round, excluded);
    if polled.Announced? {
      SteppedOverSafe(polled.manifest.id);
      HandleSafe(w, round, polled.manifest);
    }
  }

  lemma SteppedOverSafe(id: Id)
    ensures Justified([SteppedOver(id)], OfScan) && Fetches([SteppedOver(id)]) == [] && NoResults([SteppedOver(id)])
  {
  }

  /**
   One scan of a worker that may answer anything, for instance announce again and
   again what it was told to skip: every acknowledgement follows that upload's
   fetch and its import or permanent rejection, no upload is fetched twice, at
   most `SCAN_ROUNDS` are fetched at all, and every manifest a hand-on fetches is
   one the worker announced as a continuation.
   */
  lemma {:induction false} ScanSafe(w: Worker, round: nat, excluded: seq<Id>, seen: set<Id>, handOn: bool)
    requires round <= SCAN_ROUNDS
    ensures
      var log := Scan(w, round, excluded, seen, handOn).log;
      && Justified(log, OfScan) && NoResults(log)
      && Distinct(Fetches(log))
      && |Fetches(log)| <= SCAN_ROUNDS - round
      && (forall m <- Fetches(log) :: m.id !in seen && MayFetch(w, m, handOn))
    decreases SCAN_ROUNDS - round
  {
    hide OneRound, Justified, Fetches, Distinct, MayFetch, NoResults;
    NothingDone();
    if round < SCAN_ROUNDS {
      RoundSafe(w, round, excluded, seen, handOn);
      var end := OneRound(w, round, excluded, seen, handOn);
      OneIsDistinct(Fetches(end.log));
      if end.next.Onward? {
        ScanSafe(end.worker, round + 1, end.next.excluded, end.next.seen, handOn);
        var rest := Scan(end.worker, round + 1, end.next.excluded, end.next.seen, handOn).log;
        RestMayFetch(w, round, excluded, seen, handOn, Fetches(rest));
        JustifiedConcat(end.log, rest, OfScan);
        FetchesConcat(end.log, rest);
        NoResultsConcat(end.log, rest);
        DistinctConcat(Fetches(end.log), Fetches(rest), end.next.seen);
      }
    }
  }

  lemma NothingDone()
    ensures Justified([], OfScan) && Justified([], OfAny) && NoResults([])
    ensures Fetches([]) == [] && Distinct(Fetches([]))
  {
  }

  lemma OneIsDistinct(fetched: seq<Manifest>)
    requires |fetched| <= 1
    ensures Distinct(fetched)
  {
  }

  lemma NoResultsConcat(left: seq<Action>, right: seq<Action>)
    requires NoResults(left) && NoResults(right)
    ensures NoResults(left + right)
  {
  }

  lemma DistinctConcat(left: seq<Manifest>, right: seq<Manifest>, seen: set<Id>)
    requires Distinct(left) && Distinct(right)
    requires (forall m <- left :: m.id in seen) && forall m <- right :: m.id !in seen
    ensures Distinct(left + right)
  {
    var both := left + right;
    forall i, j | 0 <= i < j < |both| ensures both[i].id != both[j].id {
      if i < |left| <= j {
        assert both[i] in left && both[j] == right[j - |left|];
      }
    }
  }

  lemma RestMayFetch(w: Worker, round: nat, excluded: seq<Id>, seen: set<Id>, handOn: bool, rest: seq<Manifest>)
    requires OneRound(w, round, excluded, seen, handOn).next.Onward?
    requires
      var end := OneRound(w, round, excluded, seen, handOn);
      forall m <- rest :: m.id !in end.next.seen && MayFetch(end.worker, m, handOn)
    ensures forall m <- rest :: m.id !in seen && MayFetch(w, m, handOn)
  {
    forall m <- rest ensures m.id !in seen && MayFetch(w, m, handOn) {
      if OneRound(w, round, excluded, seen, handOn).worker != w {
        GivenUpHolds(w, Poll(w, round, excluded).manifest.id, m);
      }
    }
  }

  // -------------------------------------------------------------------- results

  /** The only results a pass fetches are those it just judged importable. */
  ghost predicate FetchesJudged(log: seq<Action>) {
    forall i | 0 <= i < |log| && log[i].FetchedResult? :: 0 < i && log[i - 1] == Judged(log[i].id, ImportNow)
  }

  /** Every judgement in a pass's log is the classification of an announced result by records read then. */
  ghost predicate JudgedTruly(lines: seq<ResultLine>, log: seq<Action>) {
    forall a <- log | a.Judged? ::
      exists line <- lines ::
        line.poll.Result? && line.poll.manifest.id == a.id && Classified(line.records, line.poll.manifest) == a.disposition
  }

  /** Whenever the result is announced, its assignment still awaits the completed projection. */
  ghost predicate OnlyDeferred(lines: seq<ResultLine>, id: Id) {
    forall line <- lines | line.poll.Result? && line.poll.manifest.id == id ::
      Classified(line.records, line.poll.manifest) == Defer
  }

  ghost predicate Untouched(log: seq<Action>, id: Id) {
    FetchedResult(id) !in log && Acked(id) !in log
  }

  ghost predicate ResultsAreSafe(lines: seq<ResultLine>, log: seq<Action>) {
    && Justified(log, OfResults) && FetchesJudged(log) && JudgedTruly(lines, log)
    && forall id | OnlyDeferred(lines, id) :: Untouched(log, id)
  }

  /**
   One pass over results, whatever the worker announces and however the records
   move between rounds: each acknowledgement has its reason, nothing is fetched
   that was not judged importable the moment before, and a result that is only
   ever announced while it awaits its completed projection is neither fetched nor
   acknowledged.
   */
  lemma {:induction false} ResultPassSafe(lines: seq<ResultLine>, round: nat, fetch: ResultFetch)
    ensures ResultsAreSafe(lines, ResultPass(lines, round, fetch))
    decreases RESULT_ROUNDS - round
  {
    hide ResultsAreSafe, JudgeResult, Classified;
    NoResultDone(lines);
    if round < RESULT_ROUNDS && AnnouncesResult(lines, round) {
      JudgeSafe(lines, round, fetch);
      var (steps, goesOn) := JudgeResult(lines[round], fetch);
      if goesOn {
        ResultPassSafe(lines, round + 1, fetch);
        ResultsConcat(lines, steps, ResultPass(lines, round + 1, fetch));
      } else {
        assert steps + [] == steps;
      }
    }
  }

  lemma NoResultDone(lines: seq<ResultLine>)
    ensures ResultsAreSafe(lines, [])
  {
  }

  lemma JudgeSafe(lines: seq<ResultLine>, round: nat, fetch: ResultFetch)
    requires AnnouncesResult(lines, round)
    ensures ResultsAreSafe(lines, JudgeResult(lines[round], fetch).0)
  {
    hide Classified;
    var line := lines[round];
    var steps := JudgeResult(line, fetch).0;
    assert line in lines;
    forall id | OnlyDeferred(lines, id) ensures Untouched(steps, id) {
      hide JudgedTruly, Justified, FetchesJudged;
    }
  }

  lemma ResultsConcat(lines: seq<ResultLine>, left: seq<Action>, right: seq<Action>)
    requires ResultsAreSafe(lines, left) && ResultsAreSafe(lines, right)
    ensures ResultsAreSafe(lines, left + right)
  {
    hide Justified, Classified, OnlyDeferred;
    JustifiedConcat(left, right, OfResults);
    FetchesJudgedConcat(left, right);
    assert forall a <- left + right :: a in left || a in right;
  }

  lemma FetchesJudgedConcat(left: seq<Action>, right: seq<Action>)
    requires FetchesJudged(left) && FetchesJudged(right)
    ensures FetchesJudged(left + right)
  {
    var both := left + right;
    forall i | 0 <= i < |both| && both[i].FetchedResult?
      ensures 0 < i && both[i - 1] == Judged(both[i].id, ImportNow)
    {
      if i >= |left| {
        assert right[i - |left|].FetchedResult?;
        assert both[i - 1] == right[i - |left| - 1];
      }
    }
  }

  // ------------------------------------------------------------------ whole runs

  /** One pass of any kind, against a worker in any state. */
  datatype Pass =
    | Checkpoints(worker: Worker, skips: seq<Id>, handOn: bool)
    | Results(lines: seq<ResultLine>, fetch: ResultFetch)

  function LogOf(p: Pass): seq<Action> {
    match p
    case Checkpoints(worker, skips, handOn) => Scan(worker, 0, skips, {}, handOn).log
    case Results(lines, fetch) => ResultPass(lines, 0, fetch)
  }

  function RunLog(passes: seq<Pass>): seq<Action> {
    if passes == [] then [] else LogOf(passes[0]) + RunLog(passes[1..])
  }

  /** No checkpoint has this id, and no pass over results meets it but awaiting its projection. */
  ghost predicate NeverReady(p: Pass, id: Id) {
    match p
    case Checkpoints(worker, _, _) => forall m | Held(worker, m) :: m.id != id
    case Results(lines, _) => OnlyDeferred(lines, id)
  }

  lemma {:induction false} FetchedAre(log: seq<Action>, i: nat)
    requires i < |log| && log[i].DidFetch?
    ensures log[i].manifest in Fetches(log)
  {
    if i > 0 {
      FetchedAre(log[1..], i - 1);
    }
  }

  lemma PassIsSafe(p: Pass, id: Id)
    ensures Justified(LogOf(p), OfAny) && (NeverReady(p, id) ==> Untouched(LogOf(p), id))
  {
    hide Scan, ResultPass, Held;
    match p {
      case Checkpoints(worker, skips, handOn) =>
        ScanSafe(worker, 0, skips, {}, handOn);
        var log := LogOf(p);
        if NeverReady(p, id) && Acked(id) in log {
          var i: nat :| i < |log| && log[i] == Acked(id);
          assert ScanReason(log, i);
          FetchedAre(log, i - 2);
          assert false;
        }
      case Results(lines, fetch) => ResultPassSafe(lines, 0, fetch);
    }
  }

  /**
   Custody: over every sequence of hand-ons, ordinary passes and result passes,
   an upload is acknowledged only directly after it was fetched and imported,
   permanently rejected or superseded, or judged to belong to a released, unknown
   or other-epoch assignment. And a result that awaits its completed projection
   whenever it is announced is neither fetched nor acknowledged in the whole run.
   */
  lemma {:induction false} CustodyOverRuns(passes: seq<Pass>, id: Id)
    ensures Justified(RunLog(passes), OfAny)
    ensures (forall p <- passes :: NeverReady(p, id)) ==> Untouched(RunLog(passes), id)
  {
    hide Justified, NeverReady, LogOf;
    NothingDone();
    if passes != [] {
      assert passes[0] in passes && forall p <- passes[1..] :: p in passes;
      PassIsSafe(passes[0], id);
      CustodyOverRuns(passes[1..], id);
      JustifiedConcat(LogOf(passes[0]), RunLog(passes[1..]), OfAny);
    }
  }
}
