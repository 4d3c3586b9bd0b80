/**
 What the passes over one worker's custody do, line by line of what the worker
 answers: which rounds are reached, how a scan ends and what it did.
 */
module CustodyScripts {
  import opened Basics
  import opened WorkerCustody

  // ------------------------------------------------------------- the checkpoint scan

  ghost function LineOf(script: seq<Replies>, r: nat): Replies {
    Line(Scripted(script), r)
  }

  ghost predicate Announces(script: seq<Replies>, r: nat, id: Id) {
    LineOf(script, r).poll.Announced? && LineOf(script, r).poll.manifest.id == id
  }

  /** An upload the worker announced in no round before. */
  ghost predicate New(script: seq<Replies>, r: nat) {
    && LineOf(script, r).poll.Announced?
    && forall k: nat | k < r :: !Announces(script, k, LineOf(script, r).poll.manifest.id)
  }

  /** The round fetches: a new upload, and on the hand-on a continuation. */
  ghost predicate Fetches(script: seq<Replies>, handOn: bool, r: nat) {
    New(script, r) && (handOn ==> LineOf(script, r).poll.manifest.continuation)
  }

  /** The fetched upload was imported or rejected for good, so it is acknowledged. */
  ghost predicate Settles(script: seq<Replies>, handOn: bool, r: nat) {
    var line := LineOf(script, r);
    Fetches(script, handOn, r) && line.fetch == Fetched && line.imported != ImportDeferred
  }

  ghost predicate Errs(script: seq<Replies>, handOn: bool, r: nat) {
    LineOf(script, r).poll == PollFailed || (Settles(script, handOn, r) && !LineOf(script, r).acknowledges)
  }

  ghost predicate BreaksAt(script: seq<Replies>, handOn: bool, r: nat) {
    Fetches(script, handOn, r) && LineOf(script, r).fetch == TransportBroke
  }

  /** The scan goes on past what it steps over, what stays, and what it took, save a checkpoint on the ordinary pass. */
  ghost predicate GoesOn(script: seq<Replies>, handOn: bool, r: nat) {
    var line := LineOf(script, r);
    && New(script, r) && !BreaksAt(script, handOn, r)
    && (Settles(script, handOn, r) ==>
          line.acknowledges && (handOn || line.imported == ImportRejected || line.imported == Imported(true)))
  }

  ghost predicate Reached(script: seq<Replies>, handOn: bool, r: nat) {
    r < SCAN_ROUNDS && forall k: nat | k < r :: GoesOn(script, handOn, k)
  }

  ghost function Seen(script: seq<Replies>, n: nat): set<Id> {
    set r: nat | r < n && LineOf(script, r).poll.Announced? :: LineOf(script, r).poll.manifest.id
  }

  ghost predicate RoundEnds(script: seq<Replies>, handOn: bool, r: nat, excluded: seq<Id>, end: RoundEnd) {
    && end.worker == Scripted(script)
    && (end.next == Halt(Errored) <==> Errs(script, handOn, r))
    && (end.next.Halt? && end.next.stop.Broke? <==> BreaksAt(script, handOn, r))
    && (end.next.Onward? <==> GoesOn(script, handOn, r))
    && (end.next.Halt? && end.next.stop.Broke? ==> Announces(script, r, end.next.stop.id))
    && (end.next.Onward? ==> end.next.seen == Seen(script, r + 1))
  }

  /** What one round did: the steps it logs. */
  ghost predicate Does(script: seq<Replies>, handOn: bool, r: nat, action: Action) {
    var line := LineOf(script, r);
    match action
    case SteppedOver(id) => New(script, r) && Announces(script, r, id) && handOn && !line.poll.manifest.continuation
    case DidFetch(manifest) => Fetches(script, handOn, r) && line.poll.manifest == manifest
    case DidImport(id) => Settles(script, handOn, r) && Announces(script, r, id) && line.imported.Imported?
    case DidReject(id) => Settles(script, handOn, r) && Announces(script, r, id) && line.imported == ImportRejected
    case Acked(id) => Settles(script, handOn, r) && Announces(script, r, id)
    case _ => false
  }

  lemma SeenGrows(script: seq<Replies>, r: nat)
    ensures forall id :: id in Seen(script, r) <==> exists k: nat :: k < r && Announces(script, k, id)
    ensures LineOf(script, r).poll.Announced? ==>
      Seen(script, r + 1) == Seen(script, r) + {LineOf(script, r).poll.manifest.id}
  {
    hide LineOf;
    forall id | id in Seen(script, r) ensures exists k: nat :: k < r && Announces(script, k, id) {
      var k: nat :| k < r && LineOf(script, k).poll.Announced? && LineOf(script, k).poll.manifest.id == id;
      assert Announces(script, k, id);
    }
  }

  lemma RoundExact(script: seq<Replies>, handOn: bool, r: nat, excluded: seq<Id>)
    ensures RoundEnds(script, handOn, r, excluded, OneRound(Scripted(script), r, excluded, Seen(script, r), handOn))
    ensures
      var log := OneRound(Scripted(script), r, excluded, Seen(script, r), handOn).log;
      forall a :: a in log <==> Does(script, handOn, r, a)
  {
    SeenGrows(script, r);
    hide Seen;
  }

  ghost predicate ScanEnds(script: seq<Replies>, handOn: bool, from: nat, end: ScanEnd) {
    && (end.stop == Errored <==> exists r: nat :: from <= r && Reached(script, handOn, r) && Errs(script, handOn, r))
    && (end.stop.Broke? <==> exists r: nat :: from <= r && Reached(script, handOn, r) && BreaksAt(script, handOn, r))
    && (end.stop.Broke? ==>
          exists r: nat :: from <= r && Reached(script, handOn, r) && BreaksAt(script, handOn, r)
            && Announces(script, r, end.stop.id))
  }

  ghost predicate ScanDoes(script: seq<Replies>, handOn: bool, from: nat, log: seq<Action>) {
    forall a :: a in log <==> exists r: nat :: from <= r && Reached(script, handOn, r) && Does(script, handOn, r, a)
  }

  lemma ReachesNext(script: seq<Replies>, handOn: bool, r: nat)
    requires Reached(script, handOn, r)
    ensures forall q: nat | r < q :: Reached(script, handOn, q) ==> GoesOn(script, handOn, r)
    ensures GoesOn(script, handOn, r) && r + 1 < SCAN_ROUNDS ==> Reached(script, handOn, r + 1)
  {
    hide GoesOn;
  }

  lemma NoneReached(script: seq<Replies>, handOn: bool, from: nat)
    requires from >= SCAN_ROUNDS
    ensures forall r: nat | from <= r :: !Reached(script, handOn, r)
  {
  }

  /** The scan from a reached round on, with what was announced so far seen. */
  lemma {:induction false} ScanFrom(script: seq<Replies>, handOn: bool, r: nat, excluded: seq<Id>)
    requires r < SCAN_ROUNDS ==> Reached(script, handOn, r)
    ensures
      var end := Scan(Scripted(script), r, excluded, Seen(script, r), handOn);
      ScanEnds(script, handOn, r, end) && ScanDoes(script, handOn, r, end.log)
    decreases SCAN_ROUNDS - r
  {
    if r >= SCAN_ROUNDS {
      NoneReached(script, handOn, r);
    } else {
      RoundExact(script, handOn, r, excluded);
      ReachesNext(script, handOn, r);
      var end := OneRound(Scripted(script), r, excluded, Seen(script, r), handOn);
      if end.next.Onward? {
        ScanFrom(script, handOn, r + 1, end.next.excluded);
      }
      hide OneRound, Reached, GoesOn, Errs, BreaksAt, Does, Seen, Announces;
      ScanStep(script, handOn, r, excluded, end);
    }
  }

  lemma ScanStep(script: seq<Replies>, handOn: bool, r: nat, excluded: seq<Id>, end: RoundEnd)
    requires r < SCAN_ROUNDS && Reached(script, handOn, r)
    requires end == OneRound(Scripted(script), r, excluded, Seen(script, r), handOn)
    requires RoundEnds(script, handOn, r, excluded, end) && forall a :: a in end.log <==> Does(script, handOn, r, a)
    requires end.next.Onward? ==>
      var rest := Scan(Scripted(script), r + 1, end.next.excluded, Seen(script, r + 1), handOn);
      ScanEnds(script, handOn, r + 1, rest) && ScanDoes(script, handOn, r + 1, rest.log)
    ensures
      var whole := Scan(Scripted(script), r, excluded, Seen(script, r), handOn);
      ScanEnds(script, handOn, r, whole) && ScanDoes(script, handOn, r, whole.log)
  {
    ReachesNext(script, handOn, r);
    hide OneRound, Reached, GoesOn, Errs, BreaksAt, Does, Seen, Announces;
  }

  /**
   What a scan comes to against a worker that answers in any way: it ends in an
   error exactly when in a round it reaches the poll fails or an acknowledgement
   does not land, it breaks its session exactly when a fetch it makes breaks the
   transport, and it steps over, fetches, imports, rejects and acknowledges
   exactly what the rounds it reaches announce for that.
   */
  lemma ScriptedScanExact(script: seq<Replies>, skipped: seq<Id>, handOn: bool)
    ensures
      var end := Scan(Scripted(script), 0, skipped, {}, handOn);
      && (end.stop == Errored <==> exists r: nat :: Reached(script, handOn, r) && Errs(script, handOn, r))
      && (end.stop.Broke? <==> exists r: nat :: Reached(script, handOn, r) && BreaksAt(script, handOn, r))
      && (forall a :: a in end.log <==> exists r: nat :: Reached(script, handOn, r) && Does(script, handOn, r, a))
  {
    hide GoesOn, Errs, BreaksAt, Does, Announces, Scan;
    assert Seen(script, 0) == {};
    ScanFrom(script, handOn, 0, skipped);
  }

  // ------------------------------------------------------------- the pass over results

  /** The pass looks past this line: a result that waits, or one discarded and acknowledged. */
  ghost predicate LooksPast(lines: seq<ResultLine>, r: nat) {
    && AnnouncesResult(lines, r)
    && var judged := Classified(lines[r].records, lines[r].poll.manifest);
       judged == Defer || (judged == Discard && lines[r].acknowledges)
  }

  ghost predicate ResultReached(lines: seq<ResultLine>, r: nat) {
    r < RESULT_ROUNDS && AnnouncesResult(lines, r) && forall k: nat | k < r :: LooksPast(lines, k)
  }

  /** What one line of the pass leads to. */
  ghost predicate ResultDoes(lines: seq<ResultLine>, fetch: ResultFetch, r: nat, a: Action)
    requires AnnouncesResult(lines, r)
  {
    var id, judged := lines[r].poll.manifest.id, Classified(lines[r].records, lines[r].poll.manifest);
    var settled := judged == ImportNow && fetch.fetched;
    || a == Judged(id, judged)
    || (a == FetchedResult(id) && judged == ImportNow)
    || (a == DidImport(id) && settled && fetch.imported == ResultImported)
    || (a == DidSupersede(id) && settled && fetch.imported == ResultSuperseded)
    || (a == DidReject(id) && settled && fetch.imported == ResultRejected)
    || (a == Acked(id) && (judged == Discard || (settled && fetch.imported != ResultFailed)))
  }

  lemma LineDoes(lines: seq<ResultLine>, fetch: ResultFetch, r: nat)
    requires AnnouncesResult(lines, r)
    ensures
      var (steps, goesOn) := JudgeResult(lines[r], fetch);
      (goesOn <==> LooksPast(lines, r)) && forall a :: a in steps <==> ResultDoes(lines, fetch, r, a)
  {
    hide Classified;
  }

  lemma ResultNext(lines: seq<ResultLine>, r: nat)
    requires forall k: nat | k < r :: LooksPast(lines, k)
    ensures forall q: nat | r < q :: ResultReached(lines, q) ==> LooksPast(lines, r)
    ensures ResultReached(lines, r) <==> r < RESULT_ROUNDS && AnnouncesResult(lines, r)
  {
    hide LooksPast;
  }

  ghost predicate ReachedDoes(lines: seq<ResultLine>, fetch: ResultFetch, r: nat, a: Action) {
    ResultReached(lines, r) && ResultDoes(lines, fetch, r, a)
  }

  ghost predicate PassDoes(lines: seq<ResultLine>, fetch: ResultFetch, from: nat, log: seq<Action>) {
    forall a :: a in log <==> exists r: nat :: from <= r && ReachedDoes(lines, fetch, r, a)
  }

  lemma ResultStep(lines: seq<ResultLine>, fetch: ResultFetch, r: nat, steps: seq<Action>, rest: seq<Action>)
    requires forall a :: a in steps <==> ReachedDoes(lines, fetch, r, a)
    requires PassDoes(lines, fetch, r + 1, rest)
    ensures PassDoes(lines, fetch, r, steps + rest)
  {
    hide ReachedDoes;
    forall a ensures a in steps + rest <==> exists q: nat :: r <= q && ReachedDoes(lines, fetch, q, a) {
      assert a in steps + rest <==> a in steps || a in rest;
    }
  }

  lemma PassEnds(lines: seq<ResultLine>, fetch: ResultFetch, r: nat)
    requires !LooksPast(lines, r)
    ensures PassDoes(lines, fetch, r + 1, [])
  {
    hide LooksPast;
    assert forall q: nat | r < q :: !ResultReached(lines, q);
  }

  lemma {:induction false} ResultsFrom(lines: seq<ResultLine>, fetch: ResultFetch, r: nat)
    requires forall k: nat | k < r :: LooksPast(lines, k)
    ensures PassDoes(lines, fetch, r, ResultPass(lines, r, fetch))
    decreases RESULT_ROUNDS - r
  {
    ResultNext(lines, r);
    if r < RESULT_ROUNDS && AnnouncesResult(lines, r) {
      hide JudgeResult, ResultDoes, PassDoes;
      LineDoes(lines, fetch, r);
      var steps, rest := JudgeResult(lines[r], fetch).0, if LooksPast(lines, r) then ResultPass(lines, r + 1, fetch) else [];
      if LooksPast(lines, r) {
        ResultsFrom(lines, fetch, r + 1);
      } else {
        PassEnds(lines, fetch, r);
      }
      ResultStep(lines, fetch, r, steps, rest);
    }
  }

  /** The line is reached and announces a result whose assignment is completed at its epoch. */
  ghost predicate Importable(lines: seq<ResultLine>, r: nat, id: Id) {
    && ResultReached(lines, r) && lines[r].poll.manifest.id == id
    && Classified(lines[r].records, lines[r].poll.manifest) == ImportNow
  }

  /**
   What the pass over the results does, exactly: what the lines it reaches lead
   to. In particular the first importable result among the first 32 announced,
   with only waiting and acknowledged discarded ones before it, is fetched, and
   nothing else is.
   */
  lemma ResultPassExact(lines: seq<ResultLine>, fetch: ResultFetch)
    ensures PassDoes(lines, fetch, 0, ResultPass(lines, 0, fetch))
    ensures forall id :: FetchedResult(id) in ResultPass(lines, 0, fetch) <==> exists r: nat :: Importable(lines, r, id)
  {
    ResultsFrom(lines, fetch, 0);
    hide ResultPass, Classified, LooksPast, ResultReached;
    forall r: nat, id ensures ReachedDoes(lines, fetch, r, FetchedResult(id)) <==> Importable(lines, r, id) {
      FetchIs(lines, fetch, r, id);
    }
    hide ReachedDoes, Importable;
  }

  lemma FetchIs(lines: seq<ResultLine>, fetch: ResultFetch, r: nat, id: Id)
    ensures ReachedDoes(lines, fetch, r, FetchedResult(id)) <==> Importable(lines, r, id)
  {
    hide Classified, LooksPast;
  }
}
