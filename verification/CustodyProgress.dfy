/**
 Bounded progress of the checkpoint scan against a worker that keeps its queue
 and honours exclusions.
 */
module CustodyProgress {
  import opened Basics
  import opened WorkerCustody

  // --------------------------------------------------------------- kinds of upload

  /** Good uploads import or are rejected for good, soft ones keep failing, bad ones break the session. */
  datatype Kind = Good | Soft | Bad

  function KindOf(u: Upload): Kind {
    match u.fate
    case Imports(_) => Good
    case Rejects => Good
    case FailsFetch => Soft
    case FailsImport => Soft
    case Breaks => Bad
  }

  function Tally(q: seq<Upload>, k: Kind): nat {
    if q == [] then 0 else (if KindOf(q[0]) == k then 1 else 0) + Tally(q[1..], k)
  }

  /** The uploads no pass can ever take off the queue. */
  function Failing(q: seq<Upload>): seq<Upload> {
    if q == [] then [] else (if KindOf(q[0]) == Good then [] else [q[0]]) + Failing(q[1..])
  }

  ghost function Ids(q: seq<Upload>): set<Id> {
    set u | u in q :: u.manifest.id
  }

  ghost function BadIds(q: seq<Upload>): set<Id> {
    if q == [] then {} else (if KindOf(q[0]) == Bad then {q[0].manifest.id} else {}) + BadIds(q[1..])
  }

  ghost predicate DistinctIds(q: seq<Upload>) {
    forall i, j | 0 <= i < j < |q| :: q[i].manifest.id != q[j].manifest.id
  }

  // ------------------------------------------------------- the scan as one traversal

  /** One upload met: left in place at a cost, taken off the queue, or fatal to the session. */
  datatype Visit = Leave(cost: nat) | Take(goesOn: bool) | Crash

  function Meet(u: Upload, skips: seq<Id>, handOn: bool): Visit {
    if u.manifest.id in skips then Leave(0)
    else if handOn && !u.manifest.continuation then Leave(1)
    else
      match u.fate
      case Breaks => Crash
      case FailsFetch => Leave(1)
      case FailsImport => Leave(1)
      case Rejects => Take(true)
      case Imports(continuationName) => Take(handOn || continuationName)
  }

  lemma MeetIs(u: Upload, skips: seq<Id>, handOn: bool)
    ensures
      match Meet(u, skips, handOn)
      case Leave(cost) =>
        && cost <= 1 && (cost == 0 <==> u.manifest.id in skips)
        && (!handOn && cost == 1 ==> KindOf(u) == Soft)
      case Take(_) => KindOf(u) == Good && u.manifest.id !in skips
      case Crash => KindOf(u) == Bad && u.manifest.id !in skips
  {
  }

  datatype WalkEnd = WalkEnd(remaining: seq<Upload>, stop: Stop)

  /**
   The scan without polls, rounds or exclusion lists: one pass along the queue,
   leaving failing uploads in place and spending `budget` on each one handled.
   */
  function Walk(q: seq<Upload>, skips: seq<Id>, budget: nat, handOn: bool): WalkEnd {
    if budget == 0 || q == [] then WalkEnd(q, Clean) else
    match Meet(q[0], skips, handOn)
    case Leave(cost) => Keeping(q[0], Walk(q[1..], skips, budget - cost, handOn))
    case Take(goesOn) => if goesOn then Walk(q[1..], skips, budget - 1, handOn) else WalkEnd(q[1..], Clean)
    case Crash => WalkEnd(q, Broke(q[0].manifest.id))
  }

  function Keeping(u: Upload, end: WalkEnd): WalkEnd {
    end.(remaining := [u] + end.remaining)
  }

  lemma {:induction false} FirstNotPast(kept: seq<Upload>, rest: seq<Upload>, excluded: seq<Id>)
    requires forall u <- kept :: u.manifest.id in excluded
    ensures FirstNot(kept + rest, excluded) == FirstNot(rest, excluded)
  {
    if kept == [] {
      assert kept + rest == rest;
    } else {
      assert (kept + rest)[1..] == kept[1..] + rest;
      FirstNotPast(kept[1..], rest, excluded);
    }
  }

  lemma {:induction false} FateAt(kept: seq<Upload>, u: Upload, rest: seq<Upload>)
    requires forall v <- kept :: v.manifest.id != u.manifest.id
    ensures FateOf(kept + ([u] + rest), u.manifest.id) == u.fate
    ensures Without(kept + ([u] + rest), u.manifest.id) == kept + rest
  {
    if kept == [] {
      assert kept + ([u] + rest) == [u] + rest && kept + rest == rest;
      assert ([u] + rest)[0] == u && ([u] + rest)[1..] == rest;
    } else {
      var q := kept + ([u] + rest);
      assert q[0] == kept[0] && q[1..] == kept[1..] + ([u] + rest);
      assert kept[0] in kept && forall v <- kept[1..] :: v in kept;
      FateAt(kept[1..], u, rest);
      assert [kept[0]] + (kept[1..] + rest) == kept + rest;
    }
  }

  /** What one round of the scan does when `u` is the first upload not excluded. */
  lemma RoundAt(kept: seq<Upload>, u: Upload, tail: seq<Upload>, round: nat, excluded: seq<Id>,
                seen: set<Id>, skips: seq<Id>, handOn: bool)
    requires forall v <- kept :: v.manifest.id in excluded
    requires u.manifest.id !in excluded && u.manifest.id !in seen && u.manifest.id !in skips
    ensures
      var id := u.manifest.id;
      var end := OneRound(Faithful(kept + [u] + tail), round, excluded, seen, handOn);
      match Meet(u, skips, handOn)
      case Leave(cost) =>
        cost == 1 && end.worker == Faithful(kept + [u] + tail) && end.next == Onward(excluded + [id], seen + {id})
      case Take(goesOn) =>
        && end.worker == Faithful(kept + tail)
        && end.next == if goesOn then Onward(excluded, seen + {id}) else Halt(Clean)
      case Crash => end.worker == Faithful(kept + [u] + tail) && end.next == Halt(Broke(id))
  {
    assert kept + [u] + tail == kept + ([u] + tail);
    FirstNotPast(kept, [u] + tail, excluded);
    FateAt(kept, u, tail);
  }

  ghost predicate Agree(scan: ScanEnd, kept: seq<Upload>, walk: WalkEnd) {
    scan.worker == Faithful(kept + walk.remaining) && scan.stop == walk.stop
  }

  /** Everything kept is excluded; of the rest, exactly the skipped ones are, and none was seen. */
  ghost predicate Aligned(kept: seq<Upload>, rest: seq<Upload>, excluded: seq<Id>, seen: set<Id>, skips: seq<Id>) {
    && DistinctIds(rest)
    && (forall u <- kept :: u.manifest.id in excluded)
    && forall u <- rest :: u.manifest.id !in seen && (u.manifest.id in excluded <==> u.manifest.id in skips)
  }

  lemma AlignedHead(kept: seq<Upload>, u: Upload, tail: seq<Upload>, excluded: seq<Id>, seen: set<Id>, skips: seq<Id>)
    requires Aligned(kept, [u] + tail, excluded, seen, skips)
    ensures Aligned(kept, tail, excluded, seen, skips)
    ensures forall v <- kept :: v.manifest.id in excluded
    ensures u.manifest.id !in seen && (u.manifest.id in excluded <==> u.manifest.id in skips)
    ensures forall v <- tail :: v.manifest.id != u.manifest.id
  {
    hide DistinctIds;
    DistinctTail(u, tail);
    assert u in [u] + tail;
    assert forall v <- tail :: v in [u] + tail;
  }

  lemma DistinctTail(u: Upload, tail: seq<Upload>)
    requires DistinctIds([u] + tail)
    ensures DistinctIds(tail) && forall v <- tail :: v.manifest.id != u.manifest.id
  {
    var rest := [u] + tail;
    assert rest[0] == u && forall i | 0 <= i < |tail| :: rest[i + 1] == tail[i];
  }

  lemma AlignedKeep(kept: seq<Upload>, u: Upload, tail: seq<Upload>, excluded: seq<Id>, seen: set<Id>, skips: seq<Id>)
    requires Aligned(kept, tail, excluded, seen, skips)
    requires forall v <- tail :: v.manifest.id != u.manifest.id
    ensures u.manifest.id in excluded ==> Aligned(kept + [u], tail, excluded, seen, skips)
    ensures Aligned(kept + [u], tail, excluded + [u.manifest.id], seen + {u.manifest.id}, skips)
  {
    assert forall v <- kept + [u] :: v in kept || v == u;
  }

  /**
   The polling scan and the traversal agree: what a scan of a faithful worker
   leaves in custody, and how it ends, is what one walk along the queue gives.
   */
  lemma {:induction false} ScanIsWalk(kept: seq<Upload>, rest: seq<Upload>, round: nat, excluded: seq<Id>,
                                      seen: set<Id>, skips: seq<Id>, handOn: bool)
    requires round <= SCAN_ROUNDS && Aligned(kept, rest, excluded, seen, skips)
    ensures Agree(Scan(Faithful(kept + rest), round, excluded, seen, handOn), kept,
                  Walk(rest, skips, SCAN_ROUNDS - round, handOn))
    decreases |rest|
  {
    if rest == [] {
      FirstNotPast(kept, rest, excluded);
      assert kept + rest == kept;
    } else if round < SCAN_ROUNDS {
      hide Aligned, Meet, OneRound;
      var u, tail := rest[0], rest[1..];
      assert rest == [u] + tail;
      AlignedHead(kept, u, tail, excluded, seen, skips);
      AlignedKeep(kept, u, tail, excluded, seen, skips);
      KeptMoves(kept, u, tail);
      if u.manifest.id in skips {
        assert Meet(u, skips, handOn) == Leave(0) by { MeetSkipped(u, skips, handOn); }
        ScanIsWalk(kept + [u], tail, round, excluded, seen, skips, handOn);
        KeptMoves(kept, u, Walk(tail, skips, SCAN_ROUNDS - round, handOn).remaining);
      } else {
        ScanIsWalkOn(kept, u, tail, round, excluded, seen, skips, handOn);
      }
    }
  }

  lemma MeetSkipped(u: Upload, skips: seq<Id>, handOn: bool)
    requires u.manifest.id in skips
    ensures Meet(u, skips, handOn) == Leave(0)
  {
  }

  lemma ScanIsWalkOn(kept: seq<Upload>, u: Upload, tail: seq<Upload>, round: nat, excluded: seq<Id>,
                     seen: set<Id>, skips: seq<Id>, handOn: bool)
    requires round < SCAN_ROUNDS && u.manifest.id !in skips
    requires Aligned(kept, [u] + tail, excluded, seen, skips)
    ensures Agree(Scan(Faithful(kept + [u] + tail), round, excluded, seen, handOn), kept,
                  Walk([u] + tail, skips, SCAN_ROUNDS - round, handOn))
    decreases |tail| + 1, 0
  {
    hide OneRound, Meet, DistinctIds;
    AlignedHead(kept, u, tail, excluded, seen, skips);
    AlignedKeep(kept, u, tail, excluded, seen, skips);
    RoundAt(kept, u, tail, round, excluded, seen, skips, handOn);
    var id, q := u.manifest.id, [u] + tail;
    assert q[0] == u && q[1..] == tail;
    match Meet(u, skips, handOn) {
      case Leave(_) =>
        ScanIsWalk(kept + [u], tail, round + 1, excluded + [id], seen + {id}, skips, handOn);
        KeptMoves(kept, u, Walk(tail, skips, SCAN_ROUNDS - round - 1, handOn).remaining);
      case Take(goesOn) =>
        if goesOn {
          ScanIsWalk(kept, tail, round + 1, excluded, seen + {id}, skips, handOn);
        }
      case Crash =>
    }
  }

  lemma KeptMoves(kept: seq<Upload>, u: Upload, rest: seq<Upload>)
    ensures kept + [u] + rest == kept + ([u] + rest)
  {
  }

  // ---------------------------------------------------------------- what a walk keeps

  lemma {:induction false} WalkKeeps(q: seq<Upload>, skips: seq<Id>, budget: nat, handOn: bool)
    ensures
      var end := Walk(q, skips, budget, handOn);
      && Failing(end.remaining) == Failing(q)
      && Tally(end.remaining, Good) <= Tally(q, Good)
      && !end.stop.Errored?
      && (end.stop.Broke? ==> end.stop.id in BadIds(q) && end.stop.id !in skips)
  {
    hide Meet, KindOf;
    if budget != 0 && q != [] {
      MeetIs(q[0], skips, handOn);
      match Meet(q[0], skips, handOn) {
        case Leave(cost) =>
          WalkKeeps(q[1..], skips, budget - cost, handOn);
          var rest := Walk(q[1..], skips, budget - cost, handOn).remaining;
          assert ([q[0]] + rest)[1..] == rest;
        case Take(goesOn) =>
          WalkKeeps(q[1..], skips, budget - 1, handOn);
        case Crash =>
      }
    }
  }

  lemma {:induction false} WalkSubset(q: seq<Upload>, skips: seq<Id>, budget: nat, handOn: bool)
    ensures forall u <- Walk(q, skips, budget, handOn).remaining :: u in q
  {
    if budget != 0 && q != [] {
      match Meet(q[0], skips, handOn) {
        case Leave(cost) => WalkSubset(q[1..], skips, budget - cost, handOn);
        case Take(goesOn) => WalkSubset(q[1..], skips, budget - 1, handOn);
        case Crash =>
      }
    }
  }

  lemma {:induction false} WalkDistinct(q: seq<Upload>, skips: seq<Id>, budget: nat, handOn: bool)
    requires DistinctIds(q)
    ensures DistinctIds(Walk(q, skips, budget, handOn).remaining)
  {
    if budget != 0 && q != [] {
      match Meet(q[0], skips, handOn) {
        case Leave(cost) =>
          WalkSubset(q[1..], skips, budget - cost, handOn);
          WalkDistinct(q[1..], skips, budget - cost, handOn);
          var rest := Walk(q[1..], skips, budget - cost, handOn).remaining;
          forall i | 0 <= i < |rest| ensures rest[i].manifest.id != q[0].manifest.id {
            assert rest[i] in q[1..];
          }
        case Take(goesOn) =>
          WalkDistinct(q[1..], skips, budget - 1, handOn);
        case Crash =>
      }
    }
  }

  /** The skip list names only uploads that break sessions. */
  ghost predicate SkipsBad(q: seq<Upload>, skips: seq<Id>) {
    forall u <- q :: u.manifest.id in skips ==> KindOf(u) == Bad
  }

  /** With soft failures to spare, a clean ordinary pass takes a good upload, if there is one. */
  lemma {:induction false} WalkProgress(q: seq<Upload>, skips: seq<Id>, budget: nat)
    requires Tally(q, Soft) < budget && SkipsBad(q, skips)
    ensures
      var end := Walk(q, skips, budget, false);
      end.stop.Clean? ==> Tally(end.remaining, Good) < Tally(q, Good) || Tally(q, Good) == 0
  {
    hide Meet, KindOf;
    if q != [] {
      MeetIs(q[0], skips, false);
      assert q[0] in q && forall u <- q[1..] :: u in q;
      match Meet(q[0], skips, false) {
        case Leave(cost) =>
          WalkProgress(q[1..], skips, budget - cost);
          var rest := Walk(q[1..], skips, budget - cost, false).remaining;
          assert ([q[0]] + rest)[1..] == rest;
        case Take(_) =>
          WalkKeeps(q[1..], skips, budget - 1, false);
        case Crash =>
      }
    }
  }

  // ------------------------------------------------------------- exchanges over time

  /** What outlives a session: the worker's queue and the skip list. */
  datatype Custody = Custody(queue: seq<Upload>, skips: seq<Id>)

  function Pass(c: Custody, handOn: bool): (Custody, Stop) {
    var end := Walk(c.queue, c.skips, SCAN_ROUNDS, handOn);
    (Custody(end.remaining, SkipsAfter(c.skips, end.stop, handOn)), end.stop)
  }

  /** A pass is what `Session.ScanCheckpoints` does on a fresh session with a faithful worker. */
  lemma PassIsScan(c: Custody, handOn: bool)
    requires DistinctIds(c.queue)
    ensures
      var scan := Scan(Faithful(c.queue), 0, c.skips, {}, handOn);
      && Pass(c, handOn).1 == scan.stop
      && scan.worker == Faithful(Pass(c, handOn).0.queue)
      && Pass(c, handOn).0.skips == SkipsAfter(c.skips, scan.stop, handOn)
  {
    hide Scan, Walk;
    assert [] + c.queue == c.queue;
    ScanIsWalk([], c.queue, 0, c.skips, {}, c.skips, handOn);
    var end := Walk(c.queue, c.skips, SCAN_ROUNDS, handOn);
    assert [] + end.remaining == end.remaining;
  }

  /**
   A hand-on alone, as every boundary makes for every worker first, or a whole
   exchange: a hand-on and, if it left the session usable, an ordinary pass.
   */
  datatype Step = HandOnOnly | Exchange

  function Perform(c: Custody, step: Step): Custody {
    var (c', stop) := Pass(c, true);
    if step.HandOnOnly? || stop.Broke? then c' else Pass(c', false).0
  }

  function Run(c: Custody, steps: seq<Step>): Custody
    decreases |steps|
  {
    if steps == [] then c else Run(Perform(c, steps[0]), steps[1..])
  }

  /** Performs one step on a fresh session, as a pass does after a failure has discarded the one before. */
  method PerformStep(worker: Worker, skips: CheckpointSkips, step: Step) returns (worker': Worker)
    requires worker.Faithful? && DistinctIds(worker.queue)
    modifies skips
    ensures
      var c := Perform(Custody(worker.queue, old(skips.ids)), step);
      worker' == Faithful(c.queue) && skips.ids == c.skips
  {
    hide Scan, Walk, SkipsAfter;
    ghost var c := Custody(worker.queue, skips.ids);
    var session := new Session(worker, skips);
    PassIsScan(c, true);
    var _, _ := session.ScanCheckpoints(true);
    ghost var c1 := Pass(c, true).0;
    if session.usable && step.Exchange? {
      WalkDistinct(c.queue, c.skips, SCAN_ROUNDS, true);
      PassIsScan(c1, false);
      var _, _ := session.ScanCheckpoints(false);
    }
    worker' := session.worker;
  }

  function Exchanges(steps: seq<Step>): nat {
    if steps == [] then 0 else (if steps[0].Exchange? then 1 else 0) + Exchanges(steps[1..])
  }

  ghost predicate DistinctSeq(xs: seq<Id>) {
    forall i, j | 0 <= i < j < |xs| :: xs[i] != xs[j]
  }

  ghost predicate Consistent(c: Custody) {
    && DistinctIds(c.queue) && DistinctSeq(c.skips)
    && (forall id <- c.skips :: id in BadIds(c.queue))
    && |BadIds(c.queue)| <= SCAN_ROUNDS
  }

  /** What is left to do, counted in exchanges. */
  ghost function Work(c: Custody): int {
    Tally(c.queue, Good) * (|BadIds(c.queue)| + 1) - |c.skips|
  }

  lemma BadIdsOfFailing(p: seq<Upload>, q: seq<Upload>)
    requires Failing(p) == Failing(q)
    ensures BadIds(p) == BadIds(q) && Tally(p, Soft) == Tally(q, Soft)
  {
    FailingHasBad(p);
    FailingHasBad(q);
  }

  lemma {:induction false} FailingHasBad(q: seq<Upload>)
    ensures BadIds(q) == BadIds(Failing(q)) && Tally(q, Soft) == Tally(Failing(q), Soft)
  {
    if q != [] {
      FailingHasBad(q[1..]);
      var tail := Failing(q[1..]);
      assert ([q[0]] + tail)[1..] == tail;
      assert Failing(q) == if KindOf(q[0]) == Good then tail else [q[0]] + tail;
    }
  }

  lemma {:induction false} BadIdsAreBad(q: seq<Upload>)
    requires DistinctIds(q)
    ensures forall u <- q :: u.manifest.id in BadIds(q) ==> KindOf(u) == Bad
    ensures forall id <- BadIds(q) :: id in Ids(q)
  {
    if q != [] {
      BadIdsAreBad(q[1..]);
      assert forall u <- q :: u == q[0] || u in q[1..];
      assert forall u <- q[1..] :: u in q && u.manifest.id != q[0].manifest.id;
      assert forall id <- Ids(q[1..]) :: id in Ids(q);
      assert q[0] in q;
    }
  }

  lemma SeqWithin(xs: seq<Id>, bound: set<Id>)
    requires DistinctSeq(xs)
    requires forall x <- xs :: x in bound
    ensures |xs| <= |bound|
    ensures |xs| == |bound| ==> forall b <- bound :: b in xs
  {
    if xs != [] {
      var last := xs[|xs| - 1];
      assert last in xs && forall x <- xs[..|xs| - 1] :: x in xs;
      SeqWithin(xs[..|xs| - 1], bound - {last});
      assert |bound - {last}| == |bound| - 1;
      assert forall b <- bound :: b == last || b in bound - {last};
    }
  }

  /**
   One pass keeps the custody consistent, loses nothing but good uploads, and
   only a clean ordinary pass shortens the skip list: it empties it. A broken
   pass adds exactly the upload that broke it.
   */
  lemma PassKeeps(c: Custody, handOn: bool)
    requires Consistent(c)
    ensures
      var (c', stop) := Pass(c, handOn);
      && Consistent(c')
      && Failing(c'.queue) == Failing(c.queue)
      && BadIds(c'.queue) == BadIds(c.queue) && Tally(c'.queue, Soft) == Tally(c.queue, Soft)
      && Tally(c'.queue, Good) <= Tally(c.queue, Good)
      && (stop.Broke? ==> c'.skips == c.skips + [stop.id] && stop.id !in c.skips)
      && (stop.Clean? ==> c'.skips == if handOn then c.skips else [])
      && !stop.Errored?
  {
    var (c', stop) := Pass(c, handOn);
    WalkKeeps(c.queue, c.skips, SCAN_ROUNDS, handOn);
    WalkDistinct(c.queue, c.skips, SCAN_ROUNDS, handOn);
    BadIdsOfFailing(c'.queue, c.queue);
    if stop.Broke? {
      SeqWithin(c.skips, BadIds(c.queue));
      assert |c.skips| < SCAN_ROUNDS;
    }
  }

  lemma WorkPositive(c: Custody)
    requires Consistent(c) && Tally(c.queue, Good) > 0
    ensures Work(c) >= 1
  {
    SeqWithin(c.skips, BadIds(c.queue));
    var g, p := Tally(c.queue, Good), |BadIds(c.queue)|;
    assert g * (p + 1) >= p + 1 by { Scaled(1, g, p + 1); }
  }

  lemma Scaled(a: int, b: int, k: nat)
    requires a <= b
    ensures a * k <= b * k
  {
  }

  lemma Outweighs(g: nat, g': nat, p: nat, s: nat, s': nat)
    requires g' < g && s <= p
    ensures g' * (p + 1) - s' < g * (p + 1) - s
  {
    Scaled(g' + 1, g, p + 1);
  }

  /** Fewer good uploads outweigh any change of the skip list. */
  lemma FewerGoodsLessWork(c: Custody, c': Custody)
    requires Consistent(c) && BadIds(c'.queue) == BadIds(c.queue)
    requires Tally(c'.queue, Good) < Tally(c.queue, Good)
    ensures Work(c') < Work(c)
  {
    SeqWithin(c.skips, BadIds(c.queue));
    Outweighs(Tally(c.queue, Good), Tally(c'.queue, Good), |BadIds(c.queue)|, |c.skips|, |c'.skips|);
  }

  lemma SkipsAreBad(c: Custody)
    requires Consistent(c)
    ensures SkipsBad(c.queue, c.skips)
  {
    BadIdsAreBad(c.queue);
  }

  /** A clean ordinary pass takes a good upload, if there is one. */
  lemma PassProgress(c: Custody)
    requires Consistent(c) && Tally(c.queue, Soft) < SCAN_ROUNDS
    ensures
      var (c', stop) := Pass(c, false);
      stop.Clean? ==> Tally(c'.queue, Good) < Tally(c.queue, Good) || Tally(c.queue, Good) == 0
  {
    hide Walk;
    SkipsAreBad(c);
    WalkProgress(c.queue, c.skips, SCAN_ROUNDS);
  }

  /** Work goes down with a good upload taken or a session breaker learnt. */
  lemma LessWork(c: Custody, c': Custody)
    requires Consistent(c) && BadIds(c'.queue) == BadIds(c.queue)
    requires Tally(c'.queue, Good) <= Tally(c.queue, Good)
    requires Tally(c'.queue, Good) == Tally(c.queue, Good) ==> |c'.skips| >= |c.skips|
    ensures Work(c') <= Work(c)
    ensures Tally(c'.queue, Good) < Tally(c.queue, Good) || |c'.skips| > |c.skips| ==> Work(c') < Work(c)
  {
    if Tally(c'.queue, Good) < Tally(c.queue, Good) {
      FewerGoodsLessWork(c, c');
    }
  }

  /** Every exchange leaves less work while a good upload is left, and no hand-on adds any. */
  lemma PerformWorks(c: Custody, step: Step)
    requires Consistent(c) && Tally(c.queue, Soft) < SCAN_ROUNDS
    ensures
      var c' := Perform(c, step);
      && Consistent(c')
      && Failing(c'.queue) == Failing(c.queue)
      && BadIds(c'.queue) == BadIds(c.queue) && Tally(c'.queue, Soft) == Tally(c.queue, Soft)
      && Tally(c'.queue, Good) <= Tally(c.queue, Good)
      && (Tally(c'.queue, Good) > 0 ==> Work(c') <= Work(c) - if step.Exchange? then 1 else 0)
  {
    hide Pass, Work, Consistent, Tally, BadIds, Failing;
    PassKeeps(c, true);
    var (c1, stop1) := Pass(c, true);
    LessWork(c, c1);
    if step.Exchange? && !stop1.Broke? {
      PassKeeps(c1, false);
      PassProgress(c1);
      var (c2, stop2) := Pass(c1, false);
      if Tally(c2.queue, Good) > 0 {
        LessWork(c1, c2);
      }
    }
  }

  lemma {:induction false} OnlyFailingLeft(q: seq<Upload>)
    requires Tally(q, Good) == 0
    ensures Failing(q) == q
  {
    if q != [] {
      OnlyFailingLeft(q[1..]);
    }
  }

  lemma {:induction false} RunWorks(c: Custody, steps: seq<Step>)
    requires Consistent(c) && Tally(c.queue, Soft) < SCAN_ROUNDS
    ensures
      var c' := Run(c, steps);
      && Consistent(c') && Failing(c'.queue) == Failing(c.queue)
      && (Tally(c'.queue, Good) > 0 ==> Work(c') <= Work(c) - Exchanges(steps))
      && Tally(c'.queue, Good) <= Tally(c.queue, Good)
    decreases |steps|
  {
    if steps != [] {
      PerformWorks(c, steps[0]);
      RunWorks(Perform(c, steps[0]), steps[1..]);
    }
  }

  /**
   Bounded progress. With fewer than `SCAN_ROUNDS` uploads that keep failing
   softly and at most `SCAN_ROUNDS` that break the session, any run with at least
   G * (P + 1) exchanges, hand-ons interleaved at will, has taken every one of
   the G good uploads: what is left is exactly the failing ones, in order.
   */
  lemma BoundedProgress(c: Custody, steps: seq<Step>)
    requires Consistent(c) && Tally(c.queue, Soft) < SCAN_ROUNDS
    requires Exchanges(steps) >= Tally(c.queue, Good) * (|BadIds(c.queue)| + 1)
    ensures Run(c, steps).queue == Failing(c.queue)
  {
    RunWorks(c, steps);
    var c' := Run(c, steps);
    if Tally(c'.queue, Good) > 0 {
      WorkPositive(c');
      assert false;
    }
    OnlyFailingLeft(c'.queue);
  }
}
