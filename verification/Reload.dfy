/**
 Configuration reload: the loop that stops one configuration's services, starts
 the next and records one receipt per request, falling back when a start fails.
 */
module Reload {
  import opened Basics

  /** A configuration by its digest, absent when it cannot be encoded, and its owner channels, which no digest covers. */
  datatype Config = Config(digest: Option<Id>, notifications: Id)

  datatype Outcome = Rejected | Unchanged | Accepted

  datatype Receipt = Receipt(requestedAt: int, completedAt: int, outcome: Outcome, previous: Option<Id>, digest: Option<Id>)

  // ---------------------------------------------------------------- the receipt writer

  function Max(a: int, b: int): int {
    if a < b then b else a
  }

  /** A receipt as written after `last`: never requested before it, never completed before it was requested. */
  function Clamped(last: Option<Receipt>, r: Receipt): Receipt {
    var requestedAt := if last.Some? then Max(r.requestedAt, last.value.requestedAt) else r.requestedAt;
    r.(requestedAt := requestedAt, completedAt := Max(r.completedAt, requestedAt))
  }

  ghost function RequestTime(r: Option<Receipt>): Option<int> {
    if r.Some? then Some(r.value.requestedAt) else None
  }

  class ReceiptWriter {
    var last: Option<Receipt>
    // The successive contents this process gave the receipt file.
    var written: seq<Receipt>

    constructor (found: Option<Receipt>)
      ensures last == found && written == []
    {
      last, written := found, [];
    }

    method Write(receipt: Receipt)
      modifies this
      ensures last == Some(Clamped(old(last), receipt))
      ensures written == old(written) + [last.value]
      ensures old(last).Some? ==> old(last).value.requestedAt <= last.value.requestedAt
      ensures last.value.requestedAt <= last.value.completedAt
      ensures receipt.requestedAt <= last.value.requestedAt && receipt.completedAt <= last.value.completedAt
      ensures last.value.requestedAt == receipt.requestedAt || Some(last.value.requestedAt) == old(RequestTime(last))
      ensures last.value.completedAt in {receipt.completedAt, last.value.requestedAt}
      ensures last.value.(requestedAt := receipt.requestedAt, completedAt := receipt.completedAt) == receipt
      ensures (old(last).Some? ==> old(last).value.requestedAt <= receipt.requestedAt) ==>
        receipt.requestedAt <= receipt.completedAt ==> last.value == receipt
    {
      var r := receipt;
      if last.Some? && r.requestedAt < last.value.requestedAt {
        r := r.(requestedAt := last.value.requestedAt);
      }
      if r.completedAt < r.requestedAt {
        r := r.(completedAt := r.requestedAt);
      }
      written := written + [r];
      last := Some(r);
    }
  }

  // --------------------------------------------------------------------- one request

  datatype Decision = Retain(verdict: Receipt) | Proceed(next: Config, receipt: Receipt)

  /** The verdict on a re-read file; `loaded` is absent when it was refused, retained work included. */
  function Evaluate(current: Config, loaded: Option<Config>, requestedAt: int, completedAt: int): Decision {
    var receipt := Receipt(requestedAt, completedAt, Rejected, current.digest, current.digest);
    if loaded.None? || current.digest.None? || loaded.value.digest.None? then Retain(receipt)
    else if loaded.value == current then Retain(receipt.(outcome := Unchanged))
    else Proceed(loaded.value, receipt.(outcome := Accepted, digest := loaded.value.digest))
  }

  // ------------------------------------------------------------------------ the loop

  /** What one wait of the loop receives; an instance may also exit without an error. */
  datatype Event =
    | Ready(now: int)
    | Exited(failed: bool, now: int)
    | ContextDone
    | Requested(loaded: Option<Config>, requestedAt: int, completedAt: int)

  datatype Phase = Starting | Running | Ended | Crashed

  /** The loop's variables, with the instances alive, the requests consumed and the receipts published. */
  datatype Loop = Loop(
    cfg: Config, fallback: Option<Config>, pending: Option<Receipt>, phase: Phase, cancelled: bool,
    alive: int, consumed: nat, last: Option<Receipt>, written: seq<Receipt>)

  function Begin(cfg: Config, found: Option<Receipt>): Loop {
    Loop(cfg, None, None, Starting, false, 1, 0, found, [])
  }

  function Publish(s: Loop, r: Receipt): Loop {
    s.(last := Some(Clamped(s.last, r)), written := s.written + [Clamped(s.last, r)])
  }

  /** The receipt one wait publishes, if any. */
  function Verdict(s: Loop, event: Event): Option<Receipt> {
    match (s.phase, event)
    case (Starting, Ready(now)) =>
      if s.pending.Some? then Some(s.pending.value.(completedAt := now)) else None
    case (Starting, Exited(failed, now)) =>
      if s.fallback.None? || s.pending.None? || !failed then None
      else
        var p := s.pending.value;
        Some(p.(outcome := Rejected, digest := p.previous, completedAt := now))
    case (Running, Requested(loaded, requestedAt, completedAt)) =>
      var decision := Evaluate(s.cfg, loaded, requestedAt, completedAt);
      if decision.Retain? then Some(decision.verdict) else None
    case _ => None
  }

  /** The loop's own variables after one wait. An event the wait does not listen for leaves them as they are. */
  function Turn(s: Loop, event: Event): Loop {
    match (s.phase, event)
    case (Starting, Ready(_)) => s.(phase := Running, fallback := None, pending := None)
    case (Starting, Exited(failed, _)) =>
      if s.fallback.None? then s.(phase := Ended, alive := s.alive - 1)
      // The rejection quotes the error of the exit, which is not there.
      else if s.pending.Some? && !failed then s.(phase := Crashed, alive := s.alive - 1)
      else s.(cfg := s.fallback.value, fallback := None, pending := None)
    case (Running, Requested(loaded, requestedAt, completedAt)) =>
      var s' := s.(consumed := s.consumed + 1);
      (match Evaluate(s.cfg, loaded, requestedAt, completedAt)
       case Retain(_) => s'
       case Proceed(next, receipt) =>
         s'.(cfg := next, fallback := Some(s.cfg), pending := Some(receipt), phase := Starting))
    case (Running, Exited(_, _)) => s.(phase := Ended, alive := s.alive - 1)
    case (Starting, ContextDone) => s.(phase := Ended, alive := s.alive - 1, cancelled := true)
    case (Running, ContextDone) => s.(phase := Ended, alive := s.alive - 1, cancelled := true)
    case _ => s
  }

  function Step(s: Loop, event: Event): Loop {
    var verdict := Verdict(s, event);
    if verdict.Some? then Publish(Turn(s, event), verdict.value) else Turn(s, event)
  }

  function Play(s: Loop, events: seq<Event>): Loop {
    if events == [] then s else Step(Play(s, events[..|events| - 1]), events[|events| - 1])
  }

  class ActivationLoop {
    var cfg: Config
    var fallback: Option<Config>
    var pending: Option<Receipt>
    var phase: Phase
    var cancelled: bool
    var alive: int
    var consumed: nat
    const receipts: ReceiptWriter

    ghost function State(): Loop
      reads this, receipts
    {
      Loop(cfg, fallback, pending, phase, cancelled, alive, consumed, receipts.last, receipts.written)
    }

    constructor (initial: Config, writer: ReceiptWriter)
      requires writer.written == []
      ensures State() == Begin(initial, writer.last) && receipts == writer
    {
      cfg, fallback, pending, cancelled, consumed, receipts := initial, None, None, false, 0, writer;
      alive, phase := 1, Starting;
    }

    method Start()
      modifies this
      ensures State() == old(State()).(alive := old(alive) + 1, phase := Starting)
    {
      alive, phase := alive + 1, Starting;
    }

    /** Waits for the running instance to return. */
    method AwaitExit()
      modifies this
      ensures State() == old(State()).(alive := old(alive) - 1)
    {
      alive := alive - 1;
    }

    method OnReady(now: int)
      requires phase == Starting
      modifies this, receipts
      ensures State() == Step(old(State()), Ready(now))
    {
      fallback := None;
      if pending.Some? {
        receipts.Write(pending.value.(completedAt := now));
        pending := None;
      }
      phase := Running;
    }

    method OnFailedStart(failed: bool, now: int)
      requires phase == Starting
      modifies this, receipts
      ensures State() == Step(old(State()), Exited(failed, now))
    {
      AwaitExit();
      if fallback.None? {
        phase := Ended;
        return;
      }
      if pending.Some? {
        if !failed {
          phase := Crashed;
          return;
        }
        var p := pending.value;
        receipts.Write(p.(outcome := Rejected, digest := p.previous, completedAt := now));
        pending := None;
      }
      cfg := fallback.value;
      fallback := None;
      Start();
    }

    method OnRequest(loaded: Option<Config>, requestedAt: int, completedAt: int)
      requires phase == Running
      modifies this, receipts
      ensures State() == Step(old(State()), Requested(loaded, requestedAt, completedAt))
    {
      consumed := consumed + 1;
      match Evaluate(cfg, loaded, requestedAt, completedAt) {
        case Retain(verdict) => receipts.Write(verdict);
        case Proceed(next, receipt) =>
          AwaitExit();
          fallback := Some(cfg);
          cfg := next;
          pending := Some(receipt);
          Start();
      }
    }

    method OnContextDone()
      requires phase in {Starting, Running}
      modifies this
      ensures State() == Step(old(State()), ContextDone)
    {
      AwaitExit();
      phase, cancelled := Ended, true;
    }

    method Run(events: seq<Event>)
      modifies this, receipts
      ensures State() == Play(old(State()), events)
    {
      for i := 0 to |events|
        invariant State() == Play(old(State()), events[..i])
      {
        assert events[..i + 1][..i] == events[..i];
        match (phase, events[i]) {
          case (Starting, Ready(now)) => OnReady(now);
          case (Starting, Exited(failed, now)) => OnFailedStart(failed, now);
          case (Running, Requested(loaded, requestedAt, completedAt)) => OnRequest(loaded, requestedAt, completedAt);
          case (Running, Exited(_, _)) =>
            AwaitExit();
            phase := Ended;
          case (Starting, ContextDone) => OnContextDone();
          case (Running, ContextDone) => OnContextDone();
          case _ =>
        }
      }
      assert events[..|events|] == events;
    }
  }

  // ------------------------------------------------------------------ what every run keeps

  /** The configuration the outside world has been told of: the prior one until its successor is up. */
  function Effective(s: Loop): Config {
    if s.fallback.Some? then s.fallback.value else s.cfg
  }

  ghost predicate PendingNames(s: Loop) {
    && s.pending.Some? && s.fallback.Some?
    && s.pending.value.outcome == Accepted
    && s.pending.value.digest == s.cfg.digest && s.pending.value.previous == s.fallback.value.digest
  }

  /** A transaction is in flight exactly between a stop and the next start's outcome. */
  ghost predicate Sound(s: Loop) {
    && s.alive == (if s.phase in {Ended, Crashed} then 0 else 1)
    && (s.pending.Some? || s.fallback.Some? ==> PendingNames(s))
    && (s.pending.Some? ==> s.phase in {Starting, Crashed} || (s.phase == Ended && s.cancelled))
    && (s.phase == Crashed ==> s.pending.Some?) && (s.cancelled ==> s.phase == Ended)
    && s.consumed == |s.written| + (if s.pending.Some? then 1 else 0)
    && (s.written != [] ==> s.last == Some(s.written[|s.written| - 1]))
  }

  /** Either nothing is published and the effective configuration stays, or one receipt says what became of it. */
  ghost predicate Transacts(s: Loop, verdict: Option<Receipt>, s': Loop) {
    match verdict
    case None => s'.written == s.written && Effective(s') == Effective(s)
    case Some(r) =>
      && s'.written == s.written + [Clamped(s.last, r)]
      && r.previous == Effective(s).digest && r.digest == Effective(s').digest
      && (r.outcome != Accepted ==> Effective(s') == Effective(s))
  }

  lemma StepIsTransaction(s: Loop, event: Event)
    requires Sound(s)
    ensures Sound(Step(s, event)) && Transacts(s, Verdict(s, event), Step(s, event))
  {
    hide Clamped;
  }

  /** Receipts as a chain of configurations, starting from digest `from`. */
  ghost predicate Chained(from: Option<Id>, written: seq<Receipt>) {
    && (written != [] ==> written[0].previous == from)
    && (forall i | 0 < i < |written| :: written[i].previous == written[i - 1].digest)
  }

  function Named(from: Option<Id>, written: seq<Receipt>): Option<Id> {
    if written == [] then from else written[|written| - 1].digest
  }

  /**
   Every reload is a transaction, over every run: at most one instance is alive;
   each consumed request has exactly one receipt, save one in flight when the
   context ends or the loop crashes; the receipts chain, each starting from the digest the one before
   it left; and the last one names the effective configuration, which is the
   running one whenever an instance is ready or nothing is pending.
   */
  lemma {:induction false} ReloadsAreTransactions(cfg: Config, found: Option<Receipt>, events: seq<Event>)
    ensures
      var s := Play(Begin(cfg, found), events);
      && Sound(s) && Chained(cfg.digest, s.written)
      && Effective(s).digest == Named(cfg.digest, s.written)
      && (s.phase == Running ==> s.pending.None? && Effective(s) == s.cfg)
  {
    hide Step, Sound, Transacts, Verdict;
    if events != [] {
      var s := Play(Begin(cfg, found), events[..|events| - 1]);
      ReloadsAreTransactions(cfg, found, events[..|events| - 1]);
      StepIsTransaction(s, events[|events| - 1]);
      ChainGrows(cfg.digest, s, Verdict(s, events[|events| - 1]), Step(s, events[|events| - 1]));
    } else {
      assert Sound(Begin(cfg, found)) by { BeginIsSound(cfg, found); }
    }
    RunningIsEffective(Play(Begin(cfg, found), events));
  }

  lemma BeginIsSound(cfg: Config, found: Option<Receipt>)
    ensures Sound(Begin(cfg, found))
  {
  }

  lemma RunningIsEffective(s: Loop)
    requires Sound(s)
    ensures s.phase == Running ==> s.pending.None? && Effective(s) == s.cfg
  {
  }

  lemma ChainGrows(from: Option<Id>, s: Loop, verdict: Option<Receipt>, s': Loop)
    requires Transacts(s, verdict, s') && Chained(from, s.written) && Effective(s).digest == Named(from, s.written)
    ensures Chained(from, s'.written) && Effective(s').digest == Named(from, s'.written)
  {
  }

  /** A running loop reaches the end of a wait with every request receipted. */
  lemma EveryRequestReceipted(cfg: Config, found: Option<Receipt>, events: seq<Event>)
    requires
      var s := Play(Begin(cfg, found), events);
      s.phase == Running || (s.phase == Ended && !s.cancelled)
    ensures
      var s := Play(Begin(cfg, found), events);
      |s.written| == s.consumed
  {
    ReloadsAreTransactions(cfg, found, events);
  }

  /**
   A configuration that fails to start is withdrawn: the very configuration that
   was running is started again, the receipt says rejected and names it, and if
   that start fails too the loop ends with nothing more written.
   */
  lemma FailedActivationRestores(s: Loop, loaded: Option<Config>, requestedAt: int, completedAt: int, now: int,
                                 failed: bool, later: int)
    requires Sound(s) && s.phase == Running && Evaluate(s.cfg, loaded, requestedAt, completedAt).Proceed?
    ensures
      var stopped := Step(s, Requested(loaded, requestedAt, completedAt));
      var restored := Step(stopped, Exited(true, now));
      var over := Step(restored, Exited(failed, later));
      && stopped.cfg == loaded.value && stopped.written == s.written
      && restored.cfg == s.cfg && restored.phase == Starting && restored.alive == 1
      && |restored.written| == |s.written| + 1
      && (var r := restored.written[|s.written|];
          r.outcome == Rejected && r.digest == r.previous == s.cfg.digest)
      && over.phase == Ended && over.alive == 0 && over.written == restored.written
  {
  }

  /** A request is refused at once: the file was, or either configuration has no digest. */
  ghost predicate RefusedAtOnce(s: Loop, event: Event) {
    event.Requested? && (event.loaded.None? || s.cfg.digest.None? || event.loaded.value.digest.None?)
  }

  ghost predicate Publishes(s: Loop, event: Event, outcome: Outcome) {
    var s' := Step(s, event);
    && |s'.written| == |s.written| + 1 && s'.written[..|s.written|] == s.written
    && s'.written[|s.written|].outcome == outcome
  }

  /**
   What a request comes to in a running loop: a rejection at once exactly when it
   is refused, an unchanged one exactly when the file loads equal to the running
   configuration, and otherwise no receipt yet but a start of the new one.
   */
  lemma RequestExact(s: Loop, event: Event)
    requires s.phase == Running && event.Requested?
    ensures
      var s', refused := Step(s, event), RefusedAtOnce(s, event);
      var same := !refused && event.loaded.value == s.cfg;
      && (Publishes(s, event, Rejected) <==> refused) && (Publishes(s, event, Unchanged) <==> same)
      && (s'.written == s.written <==> !refused && !same)
      && s'.consumed == s.consumed + 1
      && (refused || same ==> s'.phase == Running && s'.cfg == s.cfg)
      && (!refused && !same ==> s'.phase == Starting && s'.cfg == event.loaded.value && s'.fallback == Some(s.cfg))
  {
    hide Clamped;
    ClampedKeeps(s.last, Receipt(event.requestedAt, event.completedAt, Rejected, s.cfg.digest, s.cfg.digest));
    ClampedKeeps(s.last, Receipt(event.requestedAt, event.completedAt, Unchanged, s.cfg.digest, s.cfg.digest));
  }

  lemma ClampedKeeps(last: Option<Receipt>, r: Receipt)
    ensures Clamped(last, r).outcome == r.outcome
  {
  }

  /** When the loop waits for what, and how it ends. */
  lemma PhaseExact(s: Loop, event: Event)
    requires Sound(s)
    ensures
      var phase := Step(s, event).phase;
      && (phase == Ended <==>
            || s.phase == Ended
            || (event == ContextDone && s.phase in {Starting, Running})
            || (event.Exited? && (s.phase == Running || (s.phase == Starting && s.fallback.None?))))
      && (phase == Running <==>
            || (s.phase == Starting && event.Ready?)
            || (s.phase == Running && event.Ready?)
            || (s.phase == Running && event.Requested? && (RefusedAtOnce(s, event) || event.loaded == Some(s.cfg))))
      && (Step(s, event).cancelled <==> s.cancelled || (event == ContextDone && s.phase in {Starting, Running}))
  {
  }

  /** When the request a receipt answers was made, and when the event answered it. */
  ghost function AskedAt(s: Loop, event: Event): int
    requires event.Requested? || s.pending.Some?
  {
    if event.Requested? then event.requestedAt else s.pending.value.requestedAt
  }

  ghost function AnsweredAt(event: Event): int
    requires event != ContextDone
  {
    if event.Requested? then event.completedAt else event.now
  }

  /** The times of a receipt are the request's and the answer's own, moved on only where the order of receipts needs it. */
  lemma TimesExact(s: Loop, event: Event)
    requires Step(s, event).written != s.written
    ensures event != ContextDone && (event.Requested? || s.pending.Some?) && |Step(s, event).written| == |s.written| + 1
    ensures
      var r, asked, answered := Step(s, event).written[|s.written|], AskedAt(s, event), AnsweredAt(event);
      && (s.last.Some? && s.last.value.requestedAt > asked ==> r.requestedAt == s.last.value.requestedAt)
      && (s.last.None? || s.last.value.requestedAt <= asked ==> r.requestedAt == asked)
      && (answered < r.requestedAt ==> r.completedAt == r.requestedAt)
      && (answered >= r.requestedAt ==> r.completedAt == answered)
  {
  }

  /** Which outcome each event of the loop can publish. */
  lemma OutcomeExact(s: Loop, event: Event)
    requires Sound(s)
    ensures
      && (Publishes(s, event, Accepted) <==> s.phase == Starting && s.fallback.Some? && event.Ready?)
      && (Publishes(s, event, Rejected) <==>
            || (s.phase == Starting && s.fallback.Some? && event.Exited? && event.failed)
            || (s.phase == Running && RefusedAtOnce(s, event)))
      && (Publishes(s, event, Unchanged) <==>
            s.phase == Running && event.Requested? && !RefusedAtOnce(s, event) && event.loaded == Some(s.cfg))
      && (Step(s, event).written == s.written || exists outcome :: Publishes(s, event, outcome))
  {
    hide Clamped;
    var verdict := Verdict(s, event);
    if verdict.Some? {
      ClampedKeeps(s.last, verdict.value);
      assert Publishes(s, event, verdict.value.outcome);
    }
  }

  /**
   Over every run each receipt was published by one event, and says accepted
   exactly when that event was a new configuration becoming ready, unchanged
   exactly when it was a request for the running one, and rejected exactly when
   it was a refused request or a failed start.
   */
  lemma {:induction false} PublishedBy(cfg: Config, found: Option<Receipt>, events: seq<Event>, j: nat) returns (k: nat)
    requires j < |Play(Begin(cfg, found), events).written|
    ensures k < |events|
    ensures
      var s := Play(Begin(cfg, found), events[..k]);
      var outcome := Play(Begin(cfg, found), events).written[j].outcome;
      && |s.written| == j && Publishes(s, events[k], outcome)
      && (outcome == Accepted <==> events[k].Ready?)
      && (outcome == Unchanged <==> events[k].Requested? && events[k].loaded == Some(s.cfg) && s.cfg.digest.Some?)
      && (outcome == Rejected <==> events[k].Exited? || RefusedAtOnce(s, events[k]))
  {
    hide Step, Sound, Publishes;
    var n := |events| - 1;
    assert events != [];
    var s := Play(Begin(cfg, found), events[..n]);
    ReloadsAreTransactions(cfg, found, events[..n]);
    OutcomeExact(s, events[n]);
    PublishedAt(s, events[n]);
    if j < |s.written| {
      k := PublishedBy(cfg, found, events[..n], j);
      assert events[..n][..k] == events[..k];
    } else {
      k := n;
    }
  }

  lemma PublishedAt(s: Loop, event: Event)
    requires Step(s, event).written == s.written || exists outcome :: Publishes(s, event, outcome)
    ensures s.written <= Step(s, event).written && |Step(s, event).written| <= |s.written| + 1
    ensures Step(s, event).written != s.written ==> Publishes(s, event, Step(s, event).written[|s.written|].outcome)
  {
    hide Step;
  }

  /** An instance exits without an error before it is ready, while the prior configuration is held to fall back to. */
  ghost predicate ExitsSilently(s: Loop, event: Event) {
    s.phase == Starting && s.fallback.Some? && event.Exited? && !event.failed
  }

  lemma CrashStep(s: Loop, event: Event)
    requires Sound(s)
    ensures Step(s, event).phase == Crashed <==> s.phase == Crashed || ExitsSilently(s, event)
    ensures s.phase == Crashed ==> Step(s, event) == s
  {
  }

  ghost predicate SilentAt(cfg: Config, found: Option<Receipt>, events: seq<Event>, i: nat) {
    i < |events| && ExitsSilently(Play(Begin(cfg, found), events[..i]), events[i])
  }

  lemma SilentBefore(cfg: Config, found: Option<Receipt>, events: seq<Event>, n: nat, i: nat)
    requires i < n <= |events|
    ensures SilentAt(cfg, found, events[..n], i) <==> SilentAt(cfg, found, events, i)
  {
    hide ExitsSilently, Play;
    assert events[..n][..i] == events[..i];
  }

  /**
   A failed activation is not always restored: the loop crashes exactly when an
   instance exits without an error before it is ready while a fallback is held.
   */
  lemma {:induction false} CrashesIff(cfg: Config, found: Option<Receipt>, events: seq<Event>)
    ensures Play(Begin(cfg, found), events).phase == Crashed <==> exists i: nat :: SilentAt(cfg, found, events, i)
  {
    hide Step, Sound, SilentAt;
    if events == [] {
      assert !exists i: nat :: SilentAt(cfg, found, events, i) by { NeverSilent(cfg, found); }
    } else {
      var n := |events| - 1;
      var s := Play(Begin(cfg, found), events[..n]);
      CrashesIff(cfg, found, events[..n]);
      ReloadsAreTransactions(cfg, found, events[..n]);
      CrashStep(s, events[n]);
      SilentLast(cfg, found, events);
      forall i: nat | i < n ensures SilentAt(cfg, found, events[..n], i) <==> SilentAt(cfg, found, events, i) {
        SilentBefore(cfg, found, events, n, i);
      }
      assert forall i: nat :: SilentAt(cfg, found, events, i) ==> i < |events| by { SilentFits(cfg, found, events); }
      assert forall i: nat :: SilentAt(cfg, found, events[..n], i) ==> i < n by { SilentFits(cfg, found, events[..n]); }
    }
  }

  lemma NeverSilent(cfg: Config, found: Option<Receipt>)
    ensures forall i: nat :: !SilentAt(cfg, found, [], i)
  {
  }

  lemma SilentLast(cfg: Config, found: Option<Receipt>, events: seq<Event>)
    requires events != []
    ensures SilentAt(cfg, found, events, |events| - 1) <==>
      ExitsSilently(Play(Begin(cfg, found), events[..|events| - 1]), events[|events| - 1])
  {
  }

  lemma SilentFits(cfg: Config, found: Option<Receipt>, events: seq<Event>)
    ensures forall i: nat :: SilentAt(cfg, found, events, i) ==> i < |events|
  {
  }

  /** The request in flight when the loop crashes is the one left unanswered. */
  lemma CrashLosesOne(cfg: Config, found: Option<Receipt>, events: seq<Event>)
    requires Play(Begin(cfg, found), events).phase == Crashed
    ensures
      var s := Play(Begin(cfg, found), events);
      s.alive == 0 && s.pending.Some? && s.consumed == |s.written| + 1
  {
    ReloadsAreTransactions(cfg, found, events);
  }

  /**
   A file that loads takes effect: whether only its owner channels changed or its
   digest too, once the instance is ready it is the running configuration, under
   one receipt that says accepted exactly when it differs from the prior one.
   */
  lemma LoadedFileTakesEffect(s: Loop, next: Config, requestedAt: int, completedAt: int, now: int)
    requires Sound(s) && s.phase == Running && s.cfg.digest.Some? && next.digest.Some?
    ensures
      var s' := Step(Step(s, Requested(Some(next), requestedAt, completedAt)), Ready(now));
      && s'.phase == Running && s'.cfg == next && s'.alive == 1
      && |s'.written| == |s.written| + 1
      && (var r := s'.written[|s.written|];
          && r.previous == s.cfg.digest && r.digest == next.digest
          && r.outcome == if next == s.cfg then Unchanged else Accepted)
  {
    var asked := Step(s, Requested(Some(next), requestedAt, completedAt));
    assert asked.phase == Running <==> next == s.cfg;
  }

  ghost predicate InOrder(found: Option<Receipt>, written: seq<Receipt>) {
    && (forall r <- written :: r.requestedAt <= r.completedAt)
    && (forall i, j | 0 <= i < j < |written| :: written[i].requestedAt <= written[j].requestedAt)
    && (found.Some? ==> forall r <- written :: found.value.requestedAt <= r.requestedAt)
  }

  lemma PublishKeepsOrder(found: Option<Receipt>, s: Loop, r: Receipt)
    requires InOrder(found, s.written) && Remembers(found, s)
    ensures InOrder(found, Publish(s, r).written)
  {
    var r' := Clamped(s.last, r);
    assert s.last.Some? ==> s.last.value.requestedAt <= r'.requestedAt;
    forall q <- s.written ensures q.requestedAt <= r'.requestedAt {
      var i :| 0 <= i < |s.written| && s.written[i] == q;
    }
  }

  /** The writer's memory of its last receipt, the one found at start included. */
  ghost predicate Remembers(found: Option<Receipt>, s: Loop) {
    s.last == if s.written == [] then found else Some(s.written[|s.written| - 1])
  }

  /** However the wall clock steps, request times never go back over a run and no receipt completes before its request. */
  lemma {:induction false} ReceiptsInOrder(cfg: Config, found: Option<Receipt>, events: seq<Event>)
    ensures
      var s := Play(Begin(cfg, found), events);
      InOrder(found, s.written) && Remembers(found, s)
  {
    hide Step;
    if events != [] {
      hide InOrder, Remembers;
      ReceiptsInOrder(cfg, found, events[..|events| - 1]);
      StepKeepsOrder(found, Play(Begin(cfg, found), events[..|events| - 1]), events[|events| - 1]);
    }
  }

  lemma StepKeepsOrder(found: Option<Receipt>, s: Loop, event: Event)
    requires InOrder(found, s.written) && Remembers(found, s)
    ensures InOrder(found, Step(s, event).written) && Remembers(found, Step(s, event))
  {
    hide InOrder, Clamped;
    var verdict := Verdict(s, event);
    if verdict.Some? {
      PublishKeepsOrder(found, s, verdict.value);
    }
  }
}
