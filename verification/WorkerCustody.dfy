/**
 The coordinator's scan of one worker's artifact custody.

 A worker holds uploads until the coordinator acknowledges them. One scan polls
 for uploads one at a time, naming the ones it wants stepped over, and imports,
 rejects or defers each. A fetch that fails in the transport makes the session
 unusable, so the scan ends and the upload joins a skip list that outlives the
 session.
 */
module WorkerCustody {
  import opened Assignments
  import opened Basics

  /** Uploads one scan may handle, and the longest the skip list may grow. */
  const SCAN_ROUNDS: nat := 256

  /** Uploads one pass over the results may look at. */
  const RESULT_ROUNDS: nat := 32

  // ---------------------------------------------------------------- the worker

  /** `continuation` is what the manifest's object names say. */
  datatype Manifest = Manifest(id: Id, continuation: bool)

  datatype PollReply = PollFailed | Nothing | Announced(manifest: Manifest)
  datatype FetchReply = Fetched | FetchRefused | TransportBroke
  /** `continuationName` is what the imported record's own name says. */
  datatype ImportReply = Imported(continuationName: bool) | ImportRejected | ImportDeferred

  datatype Fate = Imports(continuationName: bool) | Rejects | FailsFetch | FailsImport | Breaks

  datatype Upload = Upload(manifest: Manifest, fate: Fate)

  /** What a worker answers in one round. */
  datatype Replies = Replies(poll: PollReply, fetch: FetchReply, imported: ImportReply, acknowledges: bool)

  /**
   A worker either answers in any way at all, one line of a script per round, or
   keeps a queue and honours exclusions.
   */
  datatype Worker = Scripted(script: seq<Replies>) | Faithful(queue: seq<Upload>)

  function Line(w: Worker, round: nat): Replies
    requires w.Scripted?
  {
    if round < |w.script| then w.script[round]
    else Replies(PollFailed, FetchRefused, ImportDeferred, false)
  }

  function Poll(w: Worker, round: nat, excluded: seq<Id>): PollReply {
    match w
    case Scripted(_) => Line(w, round).poll
    case Faithful(queue) => FirstNot(queue, excluded)
  }

  function FirstNot(queue: seq<Upload>, excluded: seq<Id>): PollReply {
    if queue == [] then Nothing
    else if queue[0].manifest.id in excluded then FirstNot(queue[1..], excluded)
    else Announced(queue[0].manifest)
  }

  function FateOf(queue: seq<Upload>, id: Id): Fate {
    if queue == [] then FailsFetch
    else if queue[0].manifest.id == id then queue[0].fate
    else FateOf(queue[1..], id)
  }

  function Fetch(w: Worker, round: nat, id: Id): FetchReply {
    match w
    case Scripted(_) => Line(w, round).fetch
    case Faithful(queue) =>
      match FateOf(queue, id)
      case Breaks => TransportBroke
      case FailsFetch => FetchRefused
      case _ => Fetched
  }

  function Import(w: Worker, round: nat, id: Id): ImportReply {
    match w
    case Scripted(_) => Line(w, round).imported
    case Faithful(queue) =>
      match FateOf(queue, id)
      case Imports(name) => Imported(name)
      case Rejects => ImportRejected
      case _ => ImportDeferred
  }

  predicate Acknowledges(w: Worker, round: nat) {
    w.Scripted? ==> Line(w, round).acknowledges
  }

  function Without(queue: seq<Upload>, id: Id): seq<Upload> {
    if queue == [] then []
    else if queue[0].manifest.id == id then queue[1..]
    else [queue[0]] + Without(queue[1..], id)
  }

  function GivenUp(w: Worker, id: Id): Worker {
    match w
    case Scripted(_) => w
    case Faithful(queue) => Faithful(Without(queue, id))
  }

  // ------------------------------------------------------------- the skip list

  function Skipping(ids: seq<Id>, id: Id): seq<Id> {
    var kept := if |ids| >= SCAN_ROUNDS then [] else ids;
    if id in kept then kept else kept + [id]
  }

  /** The uploads of one worker whose fetch broke a session. */
  class CheckpointSkips {
    var ids: seq<Id>

    constructor ()
      ensures ids == []
    {
      ids := [];
    }

    method Add(id: Id)
      modifies this
      ensures ids == Skipping(old(ids), id)
      ensures |old(ids)| <= SCAN_ROUNDS ==> |ids| <= SCAN_ROUNDS
    {
      if |ids| >= SCAN_ROUNDS {
        ids := [];
      }
      if id !in ids {
        ids := ids + [id];
      }
    }

    method Reset()
      modifies this
      ensures ids == []
    {
      ids := [];
    }
  }

  // -------------------------------------------------- what may become of a result

  datatype Assignment = Assignment(id: Id, epoch: int, state: AssignmentState)

  /** A result names the assignment, and its epoch, that produced it. */
  datatype ResultManifest = ResultManifest(id: Id, assignmentID: Id, assignmentEpoch: int)

  datatype Disposition = ImportNow | Defer | Discard

  /** The first record of an assignment, which is the one that counts. */
  ghost predicate IsRecordOf(records: seq<Assignment>, id: Id, i: nat) {
    && i < |records| && records[i].id == id
    && forall j | 0 <= j < i :: records[j].id != id
  }

  /** Decides what to do with an announced result before its bytes are fetched. */
  method ClassifyResultImport(records: seq<Assignment>, manifest: ResultManifest) returns (d: Disposition)
    ensures d == ImportNow <==>
      exists i: nat :: IsRecordOf(records, manifest.assignmentID, i)
        && records[i].epoch == manifest.assignmentEpoch && records[i].state == Completed
    ensures d == Defer <==>
      exists i: nat :: IsRecordOf(records, manifest.assignmentID, i)
        && records[i].epoch == manifest.assignmentEpoch && records[i].state in {Offered, Claimed, Unknown}
    ensures d == Classified(records, manifest)
  {
    ghost var whole := Classified(records, manifest);
    for i := 0 to |records|
      invariant forall j | 0 <= j < i :: records[j].id != manifest.assignmentID
      invariant whole == Classified(records[i..], manifest)
    {
      assert records[i..][1..] == records[i + 1..];
      if records[i].id == manifest.assignmentID {
        assert forall j: nat :: IsRecordOf(records, manifest.assignmentID, j) <==> j == i;
        if records[i].epoch != manifest.assignmentEpoch {
          return Discard;
        }
        match records[i].state {
          case Completed => return ImportNow;
          case Released => return Discard;
          case _ => return Defer;
        }
      }
    }
    return Discard;
  }

  function Classified(records: seq<Assignment>, manifest: ResultManifest): Disposition {
    if records == [] then Discard
    else if records[0].id != manifest.assignmentID then Classified(records[1..], manifest)
    else if records[0].epoch != manifest.assignmentEpoch || records[0].state == Released then Discard
    else if records[0].state == Completed then ImportNow
    else Defer
  }

  // ---------------------------------------------------------- the scan, defined

  datatype Action =
    | SteppedOver(id: Id) | DidFetch(manifest: Manifest) | DidImport(id: Id) | DidReject(id: Id)
    | Judged(id: Id, disposition: Disposition) | FetchedResult(id: Id) | DidSupersede(id: Id) | Acked(id: Id)

  /**
   What handling one announced upload came to: it stays with the worker, it was
   acknowledged and `goesOn` says whether an ordinary pass looks further, the
   acknowledgement failed, or its fetch broke the session.
   */
  datatype Handled = Kept | Gone(goesOn: bool) | NotAcknowledged | BrokeSession

  /** Fetch, import and acknowledge one upload; returns the steps taken as well. */
  function Handle(w: Worker, round: nat, manifest: Manifest): (Handled, seq<Action>) {
    var id := manifest.id;
    match Fetch(w, round, id)
    case TransportBroke => (BrokeSession, [DidFetch(manifest)])
    case FetchRefused => (Kept, [DidFetch(manifest)])
    case Fetched =>
      var reply := Import(w, round, id);
      if reply.ImportDeferred? then
        (Kept, [DidFetch(manifest)])
      else
        var settled := if reply.ImportRejected? then DidReject(id) else DidImport(id);
        (if !Acknowledges(w, round) then NotAcknowledged
         else Gone(reply.ImportRejected? || reply.continuationName),
         [DidFetch(manifest), settled, Acked(id)])
  }

  datatype Stop = Clean | Errored | Broke(id: Id)

  /** One round either ends the scan or goes on with longer lists. */
  datatype Round = Halt(stop: Stop) | Onward(excluded: seq<Id>, seen: set<Id>)

  datatype RoundEnd = RoundEnd(next: Round, worker: Worker, log: seq<Action>)

  function OneRound(w: Worker, round: nat, excluded: seq<Id>, seen: set<Id>, handOn: bool): RoundEnd {
    match Poll(w, round, excluded)
    case PollFailed => RoundEnd(Halt(Errored), w, [])
    case Nothing => RoundEnd(Halt(Clean), w, [])
    case Announced(manifest) =>
      var id := manifest.id;
      if id in seen then RoundEnd(Halt(Clean), w, [])
      else if handOn && !manifest.continuation then
        RoundEnd(Onward(excluded + [id], seen + {id}), w, [SteppedOver(id)])
      else
        var (handled, log) := Handle(w, round, manifest);
        match handled
        case BrokeSession => RoundEnd(Halt(Broke(id)), w, log)
        case NotAcknowledged => RoundEnd(Halt(Errored), w, log)
        case Kept => RoundEnd(Onward(excluded + [id], seen + {id}), w, log)
        case Gone(goesOn) =>
          RoundEnd(if handOn || goesOn then Onward(excluded, seen + {id}) else Halt(Clean), GivenUp(w, id), log)
  }

  datatype ScanEnd = ScanEnd(worker: Worker, log: seq<Action>, stop: Stop)

  /** One scan from `round` on, with a usable session. */
  function Scan(w: Worker, round: nat, excluded: seq<Id>, seen: set<Id>, handOn: bool): ScanEnd
    decreases SCAN_ROUNDS - round
  {
    if round >= SCAN_ROUNDS then ScanEnd(w, [], Clean) else
    var end := OneRound(w, round, excluded, seen, handOn);
    match end.next
    case Halt(stop) => ScanEnd(end.worker, end.log, stop)
    case Onward(excluded', seen') =>
      var rest := Scan(end.worker, round + 1, excluded', seen', handOn);
      rest.(log := end.log + rest.log)
  }

  /** What a scan does to the skip list. */
  function SkipsAfter(ids: seq<Id>, stop: Stop, handOn: bool): seq<Id> {
    match stop
    case Broke(id) => Skipping(ids, id)
    case Clean => if handOn then ids else []
    case Errored => ids
  }

  /** The log ends with a fetch. */
  predicate BreaksOff(log: seq<Action>) {
    log != [] && log[|log| - 1].DidFetch?
  }

  function LastFetched(log: seq<Action>): Id
    requires BreaksOff(log)
  {
    log[|log| - 1].manifest.id
  }

  /** The skip list gains an upload: at its end unless it holds it already, and alone when the list was full. */
  predicate Gains(ids: seq<Id>, ids': seq<Id>, id: Id) {
    if |ids| >= SCAN_ROUNDS then ids' == [id] else if id in ids then ids' == ids else ids' == ids + [id]
  }

  lemma SkippingGains(ids: seq<Id>, id: Id)
    ensures Gains(ids, Skipping(ids, id), id)
  {
  }

  /** A scan that broke its session broke off at a fetch, of the upload it names. */
  lemma {:induction false} BrokeAtFetch(w: Worker, round: nat, excluded: seq<Id>, seen: set<Id>, handOn: bool)
    ensures
      var end := Scan(w, round, excluded, seen, handOn);
      end.stop.Broke? ==> BreaksOff(end.log) && LastFetched(end.log) == end.stop.id
    decreases SCAN_ROUNDS - round
  {
    if round < SCAN_ROUNDS {
      var end := OneRound(w, round, excluded, seen, handOn);
      if end.next.Onward? {
        BrokeAtFetch(end.worker, round + 1, end.next.excluded, end.next.seen, handOn);
      }
    }
  }

  // --------------------------------------------------------- the scan, performed

  /** One protocol session with a worker; `usable` turns false for good. */
  class Session {
    var usable: bool
    var worker: Worker
    const skips: CheckpointSkips

    constructor (worker: Worker, skips: CheckpointSkips)
      ensures usable && this.worker == worker && this.skips == skips
    {
      usable, this.worker, this.skips := true, worker, skips;
    }

    /** Fetches, imports and acknowledges one announced upload. */
    method HandleUpload(round: nat, manifest: Manifest) returns (handled: Handled, log: seq<Action>)
      modifies this, skips
      ensures handled == Handle(old(worker), round, manifest).0
      ensures log == Handle(old(worker), round, manifest).1
      ensures worker == if handled.Gone? then GivenUp(old(worker), manifest.id) else old(worker)
      ensures usable == (old(usable) && !handled.BrokeSession?)
      ensures skips.ids == if handled.BrokeSession? then Skipping(old(skips.ids), manifest.id) else old(skips.ids)
    {
      var id := manifest.id;
      log := [DidFetch(manifest)];
      var fetched := Fetch(worker, round, id);
      if fetched.TransportBroke? {
        usable := false;
        skips.Add(id);
        return BrokeSession, log;
      }
      if fetched.FetchRefused? {
        return Kept, log;
      }
      var goesOn := true;
      match Import(worker, round, id) {
        case ImportDeferred => return Kept, log;
        case ImportRejected => log := log + [DidReject(id)];
        case Imported(continuationName) =>
          log := log + [DidImport(id)];
          goesOn := continuationName;
      }
      log := log + [Acked(id)];
      if !Acknowledges(worker, round) {
        return NotAcknowledged, log;
      }
      worker := GivenUp(worker, id);
      handled := Gone(goesOn);
    }

    /** One round of a scan. */
    method ScanRound(round: nat, excluded: seq<Id>, seen: set<Id>, handOn: bool)
      returns (next: Round, log: seq<Action>)
      modifies this, skips
      ensures
        var end := OneRound(old(worker), round, excluded, seen, handOn);
        && next == end.next && worker == end.worker && log == end.log
      ensures usable == (old(usable) && !(next.Halt? && next.stop.Broke?))
      ensures skips.ids == if next.Halt? && next.stop.Broke? then Skipping(old(skips.ids), next.stop.id) else old(skips.ids)
    {
      var polled := Poll(worker, round, excluded);
      if polled.PollFailed? {
        return Halt(Errored), [];
      }
      if polled.Nothing? || polled.manifest.id in seen {
        return Halt(Clean), [];
      }
      var id := polled.manifest.id;
      var seen' := seen + {id};
      if handOn && !polled.manifest.continuation {
        return Onward(excluded + [id], seen'), [SteppedOver(id)];
      }
      var handled;
      handled, log := HandleUpload(round, polled.manifest);
      match handled {
        case BrokeSession => next := Halt(Broke(id));
        case NotAcknowledged => next := Halt(Errored);
        case Kept => next := Onward(excluded + [id], seen');
        case Gone(goesOn) => next := if handOn || goesOn then Onward(excluded, seen') else Halt(Clean);
      }
    }

    /**
     One scan of the worker's checkpoint custody: the hand-on, which takes only
     continuation snapshots, or the ordinary pass. A session that is already
     unusable changes nothing.
     */
    method ScanCheckpoints(handOn: bool) returns (ok: bool, log: seq<Action>)
      modifies this, skips
      ensures !old(usable) ==>
        !ok && log == [] && !usable && worker == old(worker) && skips.ids == old(skips.ids)
      ensures old(usable) ==>
        var end := Scan(old(worker), 0, old(skips.ids), {}, handOn);
        && log == end.log && worker == end.worker
        && ok == end.stop.Clean? && usable == !end.stop.Broke?
        && skips.ids == SkipsAfter(old(skips.ids), end.stop, handOn)
      ensures ok ==> usable && skips.ids == if handOn then old(skips.ids) else []
      ensures !ok && usable ==> skips.ids == old(skips.ids)
      ensures old(usable) && !usable ==> !ok && BreaksOff(log) && Gains(old(skips.ids), skips.ids, LastFetched(log))
    {
      hide OneRound, Skipping, Gains, BreaksOff, LastFetched;
      BrokeAtFetch(worker, 0, skips.ids, {}, handOn);
      var excluded: seq<Id>, seen: set<Id> := skips.ids, {};
      log := [];
      var round := 0;
      while round < SCAN_ROUNDS
        invariant 0 <= round <= SCAN_ROUNDS
        invariant usable == old(usable) && skips.ids == old(skips.ids)
        invariant round > 0 ==> usable
        invariant round == 0 ==> worker == old(worker) && log == []
        invariant
          var whole := Scan(old(worker), 0, old(skips.ids), {}, handOn);
          var rest := Scan(worker, round, excluded, seen, handOn);
          whole == rest.(log := log + rest.log)
      {
        if !usable {
          return false, [];
        }
        ghost var before := log;
        var next, steps := ScanRound(round, excluded, seen, handOn);
        log := log + steps;
        if next.Halt? {
          if next.stop.Clean? {
            break;
          }
          if next.stop.Broke? {
            SkippingGains(old(skips.ids), next.stop.id);
          }
          return false, log;
        }
        excluded, seen := next.excluded, next.seen;
        round := round + 1;
        assert forall tail :: before + (steps + tail) == log + tail;
      }
      if !handOn {
        skips.Reset();
      }
      ok := true;
    }
  }

  // ------------------------------------------------------- the pass over results

  datatype ResultPoll = ResultPollFailed | NoResult | Result(manifest: ResultManifest)
  datatype ResultImport = ResultImported | ResultSuperseded | ResultRejected | ResultFailed

  /** One round's answers: the poll, the records read then, and whether an acknowledgement lands. */
  datatype ResultLine = ResultLine(poll: ResultPoll, recordsRead: bool, records: seq<Assignment>, acknowledges: bool)

  /** The answers to the one fetch and import that a pass may make. */
  datatype ResultFetch = ResultFetch(fetched: bool, imported: ResultImport)

  function Settlement(id: Id, how: ResultImport): seq<Action> {
    match how
    case ResultImported => [DidImport(id), Acked(id)]
    case ResultSuperseded => [DidSupersede(id), Acked(id)]
    case ResultRejected => [DidReject(id), Acked(id)]
    case ResultFailed => []
  }

  /** What one announced result leads to: the steps taken, and whether the pass looks further. */
  function JudgeResult(line: ResultLine, fetch: ResultFetch): (seq<Action>, bool)
    requires line.poll.Result?
  {
    var id := line.poll.manifest.id;
    match Classified(line.records, line.poll.manifest)
    case Defer => ([Judged(id, Defer)], true)
    case Discard => ([Judged(id, Discard), Acked(id)], line.acknowledges)
    case ImportNow =>
      ([Judged(id, ImportNow), FetchedResult(id)] + if fetch.fetched then Settlement(id, fetch.imported) else [], false)
  }

  predicate AnnouncesResult(lines: seq<ResultLine>, round: nat) {
    round < |lines| && lines[round].poll.Result? && lines[round].recordsRead
  }

  /** What a pass over the worker's results does, from `round` on. */
  function ResultPass(lines: seq<ResultLine>, round: nat, fetch: ResultFetch): seq<Action>
    decreases RESULT_ROUNDS - round
  {
    if round >= RESULT_ROUNDS || !AnnouncesResult(lines, round) then []
    else
      var (steps, goesOn) := JudgeResult(lines[round], fetch);
      steps + if goesOn then ResultPass(lines, round + 1, fetch) else []
  }

  /** Judges one announced result and acts on the judgement. */
  method HandleResult(line: ResultLine, fetch: ResultFetch) returns (steps: seq<Action>, goesOn: bool)
    requires line.poll.Result?
    ensures steps == JudgeResult(line, fetch).0 && goesOn == JudgeResult(line, fetch).1
    ensures
      var id, judged := line.poll.manifest.id, Classified(line.records, line.poll.manifest);
      && steps != [] && steps[0] == Judged(id, judged)
      && (FetchedResult(id) in steps <==> judged == ImportNow)
      && (Acked(id) in steps <==>
            judged == Discard || (judged == ImportNow && fetch.fetched && !fetch.imported.ResultFailed?))
      && (judged == Defer ==> steps == [Judged(id, Defer)] && goesOn)
  {
    hide Classified;
    var id := line.poll.manifest.id;
    var disposition := ClassifyResultImport(line.records, line.poll.manifest);
    steps := [Judged(id, disposition)];
    match disposition {
      case Defer => goesOn := true;
      case Discard =>
        steps := steps + [Acked(id)];
        goesOn := line.acknowledges;
      case ImportNow =>
        steps := steps + [FetchedResult(id)];
        if fetch.fetched {
          steps := steps + Settlement(id, fetch.imported);
        }
        goesOn := false;
    }
  }

  /** One pass over a worker's results: it imports at most one. */
  method ImportResult(lines: seq<ResultLine>, fetch: ResultFetch) returns (log: seq<Action>)
    ensures log == ResultPass(lines, 0, fetch)
  {
    hide JudgeResult;
    log := [];
    var round := 0;
    while round < RESULT_ROUNDS
      invariant 0 <= round <= RESULT_ROUNDS
      invariant ResultPass(lines, 0, fetch) == log + ResultPass(lines, round, fetch)
    {
      if !AnnouncesResult(lines, round) {
        return;
      }
      var steps, goesOn := HandleResult(lines[round], fetch);
      ghost var before := log;
      assert forall tail :: before + (steps + tail) == (before + steps) + tail;
      log := log + steps;
      if !goesOn {
        return;
      }
      round := round + 1;
    }
  }
}
