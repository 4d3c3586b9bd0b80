/** The recorded facts a campaign result reads, and what they say about a task's verification. */
module ResultRecords {
  import opened Basics

  // ---------------------------------------------------------------- recorded facts

  datatype Kind = Output | VerificationReport | GateReport

  /** A retained artifact; `selected` when the task's latest attempt retained it. */
  datatype Artifact = Artifact(id: Id, kind: Kind, name: Id, selected: bool)

  /** What an artifact's bytes parse as. */
  datatype Content =
    | CommitRecord(commit: Id, failedAttempt: bool)
    | CommandReport(command: Id, exitCode: int)
    | GateOutcome(attempt: Id, passed: bool)
    | Unparsable

  /** Access to artifact contents; a reader may be absent, and may lack any artifact. */
  type Reader = Option<map<Id, Content>>

  datatype Verdict = Accept | ChangesRequested

  /** A recorded review gate; `accepted` when it passed as accepted-head. */
  datatype Gate = Gate(accepted: bool, reviewedHead: Option<Id>)

  datatype Attempt = Attempt(id: Id, terminal: bool, succeeded: bool, verdict: Option<Verdict>, gate: Option<Gate>)

  /** The outputs of one producer a task consumes. */
  datatype Input = Input(producer: Id, names: seq<Id>)

  /** A task in manifest order; `declared` are its verification commands, `inputs` are in producer order. */
  datatype Task = Task(
    name: Id, sink: bool, attempt: Option<Attempt>, commitOutputs: seq<Id>, inputs: seq<Input>,
    declared: seq<Id>, gateDeclared: bool, artifacts: seq<Artifact>)

  datatype VerificationState = NotDeclared | Pending | Failed | Unavailable | Missing | Passed

  function Read(reader: Reader, id: Id): Option<Content> {
    if reader.Some? && id in reader.value then Some(reader.value[id]) else None
  }

  predicate Matches(a: Artifact, kind: Kind, name: Id) {
    a.selected && a.kind == kind && a.name == name
  }

  /** The last matching artifact. */
  function Latest(artifacts: seq<Artifact>, kind: Kind, name: Id): Option<Artifact> {
    if artifacts == [] then None
    else if Matches(artifacts[|artifacts| - 1], kind, name) then Some(artifacts[|artifacts| - 1])
    else Latest(artifacts[..|artifacts| - 1], kind, name)
  }

  /** The artifact at `i` is selected, of this kind and name, and no later one is. */
  ghost predicate IsLatest(artifacts: seq<Artifact>, kind: Kind, name: Id, i: nat) {
    && i < |artifacts| && artifacts[i].selected && artifacts[i].kind == kind && artifacts[i].name == name
    && forall j | i < j < |artifacts| :: !(artifacts[j].selected && artifacts[j].kind == kind && artifacts[j].name == name)
  }

  lemma {:induction false} LatestIs(artifacts: seq<Artifact>, kind: Kind, name: Id)
    ensures Latest(artifacts, kind, name).Some? <==> exists i: nat :: IsLatest(artifacts, kind, name, i)
    ensures forall i: nat :: IsLatest(artifacts, kind, name, i) ==> Latest(artifacts, kind, name) == Some(artifacts[i])
  {
    if artifacts != [] {
      var init, n := artifacts[..|artifacts| - 1], |artifacts| - 1;
      LatestIs(init, kind, name);
      if Matches(artifacts[n], kind, name) {
        assert IsLatest(artifacts, kind, name, n);
        assert forall i: nat :: IsLatest(artifacts, kind, name, i) ==> i == n;
      } else {
        assert forall i: nat :: IsLatest(artifacts, kind, name, i) <==> IsLatest(init, kind, name, i);
      }
    }
  }

  method LatestArtifact(artifacts: seq<Artifact>, kind: Kind, name: Id) returns (found: Option<Artifact>)
    ensures found == Latest(artifacts, kind, name)
    ensures found.Some? <==> exists i: nat :: IsLatest(artifacts, kind, name, i)
    ensures forall i: nat :: IsLatest(artifacts, kind, name, i) ==> found == Some(artifacts[i])
  {
    LatestIs(artifacts, kind, name);
    hide IsLatest;
    found := None;
    for i := 0 to |artifacts|
      invariant found == Latest(artifacts[..i], kind, name)
    {
      assert artifacts[..i + 1][..i] == artifacts[..i];
      if Matches(artifacts[i], kind, name) {
        found := Some(artifacts[i]);
      }
    }
    assert artifacts[..|artifacts|] == artifacts;
  }

  // ------------------------------------------------------------------- verification

  predicate IsReport(a: Artifact) {
    a.selected && a.kind == VerificationReport
  }

  function ReportCount(artifacts: seq<Artifact>): nat {
    if artifacts == [] then 0
    else ReportCount(artifacts[..|artifacts| - 1]) + if IsReport(artifacts[|artifacts| - 1]) then 1 else 0
  }

  predicate ReportFails(reader: Reader, a: Artifact) {
    IsReport(a) && (match Read(reader, a.id) case Some(CommandReport(_, exitCode)) => exitCode != 0 case _ => false)
  }

  predicate ReportUnreadable(reader: Reader, a: Artifact) {
    IsReport(a) && (match Read(reader, a.id) case Some(CommandReport(_, _)) => false case _ => true)
  }

  const GATE := Id(0)

  /** The gate's part of a verification; `NotDeclared` when the task declares none. */
  function GateState(task: Task, reader: Reader): VerificationState
    requires task.attempt.Some?
  {
    if !task.gateDeclared then NotDeclared
    else
      match Latest(task.artifacts, GateReport, GATE)
      case None => Missing
      case Some(artifact) =>
        match Read(reader, artifact.id)
        case Some(GateOutcome(attempt, passed)) =>
          if attempt != task.attempt.value.id then Unavailable else if passed then Passed else Failed
        case _ => Unavailable
  }

  /** The latest attempt's verification; a failure is reported before anything unreadable or missing. */
  function VerificationOf(task: Task, reader: Reader): VerificationState {
    if task.declared == [] && !task.gateDeclared then NotDeclared
    else if task.attempt.None? || !task.attempt.value.terminal then Pending
    else
      var gate := GateState(task, reader);
      if (exists a <- task.artifacts :: ReportFails(reader, a)) || gate == Failed then Failed
      else if (exists a <- task.artifacts :: ReportUnreadable(reader, a)) || gate == Unavailable then Unavailable
      else if ReportCount(task.artifacts) < |task.declared| || gate == Missing then Missing
      else Passed
  }

  method ReadReports(artifacts: seq<Artifact>, reader: Reader) returns (reports: nat, failed: bool, unavailable: bool)
    ensures reports == ReportCount(artifacts)
    ensures failed <==> exists a <- artifacts :: ReportFails(reader, a)
    ensures unavailable <==> exists a <- artifacts :: ReportUnreadable(reader, a)
  {
    hide Read;
    reports, failed, unavailable := 0, false, false;
    for i := 0 to |artifacts|
      invariant reports == ReportCount(artifacts[..i])
      invariant failed <==> exists a <- artifacts[..i] :: ReportFails(reader, a)
      invariant unavailable <==> exists a <- artifacts[..i] :: ReportUnreadable(reader, a)
    {
      var artifact := artifacts[i];
      assert artifacts[..i + 1] == artifacts[..i] + [artifact];
      assert artifact in artifacts[..i + 1];
      if !IsReport(artifact) {
        continue;
      }
      reports := reports + 1;
      var content := Read(reader, artifact.id);
      if content.None? || !content.value.CommandReport? {
        assert ReportUnreadable(reader, artifact) && !ReportFails(reader, artifact);
        unavailable := true;
      } else if content.value.exitCode != 0 {
        assert ReportFails(reader, artifact) && !ReportUnreadable(reader, artifact);
        failed := true;
      } else {
        assert !ReportFails(reader, artifact) && !ReportUnreadable(reader, artifact);
      }
    }
    assert artifacts[..|artifacts|] == artifacts;
  }

  method Verification(task: Task, reader: Reader) returns (state: VerificationState)
    ensures state == VerificationOf(task, reader)
  {
    if task.declared == [] && !task.gateDeclared {
      return NotDeclared;
    }
    if task.attempt.None? || !task.attempt.value.terminal {
      return Pending;
    }
    var reports, failed, unavailable := ReadReports(task.artifacts, reader);
    var gate := GateState(task, reader);
    if failed || gate == Failed {
      state := Failed;
    } else if unavailable || gate == Unavailable {
      state := Unavailable;
    } else if reports < |task.declared| || gate == Missing {
      state := Missing;
    } else {
      state := Passed;
    }
  }

  /** The report is readable and its command exited with zero. */
  predicate ReportPasses(reader: Reader, a: Artifact) {
    IsReport(a) && (match Read(reader, a.id) case Some(CommandReport(_, exitCode)) => exitCode == 0 case _ => false)
  }

  /** The positions of the verification reports the latest attempt retained. */
  ghost function ReportsAmong(artifacts: seq<Artifact>): set<nat> {
    set i: nat | i < |artifacts| && artifacts[i].kind == VerificationReport && artifacts[i].selected
  }

  lemma {:induction false} CountIsReports(artifacts: seq<Artifact>)
    ensures ReportCount(artifacts) == |ReportsAmong(artifacts)|
  {
    if artifacts == [] {
      assert ReportsAmong(artifacts) == {};
    } else {
      var n := |artifacts| - 1;
      CountIsReports(artifacts[..n]);
      assert ReportsAmong(artifacts) == ReportsAmong(artifacts[..n]) + if IsReport(artifacts[n]) then {n} else {};
    }
  }

  /**
   Passed means all of it: something was declared, the attempt is over, every
   report reads exit zero, there are as many as were declared, and a declared
   gate's latest report is about this attempt and passed.
   */
  lemma PassedExact(task: Task, reader: Reader)
    ensures VerificationOf(task, reader) == Passed <==>
      && (task.declared != [] || task.gateDeclared)
      && task.attempt.Some? && task.attempt.value.terminal
      && (forall a <- task.artifacts :: a.kind == VerificationReport && a.selected ==> ReportPasses(reader, a))
      && |ReportsAmong(task.artifacts)| >= |task.declared|
      && (task.gateDeclared ==>
            var gate := Latest(task.artifacts, GateReport, GATE);
            gate.Some? && Read(reader, gate.value.id) == Some(GateOutcome(task.attempt.value.id, true)))
  {
    CountIsReports(task.artifacts);
    hide Latest, ReportCount, Read, ReportsAmong;
    forall a <- task.artifacts | IsReport(a)
      ensures ReportPasses(reader, a) <==> !ReportFails(reader, a) && !ReportUnreadable(reader, a)
    {
    }
  }

  ghost predicate ReadsAs(reader: Reader, a: Artifact, content: Content) {
    reader.Some? && a.id in reader.value && reader.value[a.id] == content
  }

  /** A retained report of a command that did not exit with zero. */
  ghost predicate SomeReportFails(task: Task, reader: Reader) {
    exists a <- task.artifacts, command: Id, code: int ::
      a.selected && a.kind == VerificationReport && ReadsAs(reader, a, CommandReport(command, code)) && code != 0
  }

  /** A retained report that does not read as one. */
  ghost predicate SomeReportUnreadable(task: Task, reader: Reader) {
    exists a <- task.artifacts :: a.selected && a.kind == VerificationReport
      && forall command: Id, code: int :: !ReadsAs(reader, a, CommandReport(command, code))
  }

  /** The gate's latest report stands at `i`. */
  ghost predicate GateAt(task: Task, i: nat) {
    task.gateDeclared && IsLatest(task.artifacts, GateReport, GATE, i)
  }

  ghost predicate GateReads(task: Task, reader: Reader, passed: bool) {
    task.attempt.Some? && exists i: nat ::
      GateAt(task, i) && ReadsAs(reader, task.artifacts[i], GateOutcome(task.attempt.value.id, passed))
  }

  lemma ReportExact(task: Task, reader: Reader)
    ensures (exists a <- task.artifacts :: ReportFails(reader, a)) <==> SomeReportFails(task, reader)
    ensures (exists a <- task.artifacts :: ReportUnreadable(reader, a)) <==> SomeReportUnreadable(task, reader)
  {
    forall a <- task.artifacts
      ensures ReportFails(reader, a) <==>
        a.selected && a.kind == VerificationReport
        && exists command: Id, code: int :: ReadsAs(reader, a, CommandReport(command, code)) && code != 0
      ensures ReportUnreadable(reader, a) <==>
        a.selected && a.kind == VerificationReport
        && forall command: Id, code: int :: !ReadsAs(reader, a, CommandReport(command, code))
    {
      if Read(reader, a.id).Some? && Read(reader, a.id).value.CommandReport? {
        var content := Read(reader, a.id).value;
        assert ReadsAs(reader, a, CommandReport(content.command, content.exitCode));
      }
    }
  }

  lemma GateExact(task: Task, reader: Reader)
    requires task.attempt.Some?
    ensures
      var state := GateState(task, reader);
      && (state == NotDeclared <==> !task.gateDeclared)
      && (state == Missing <==> task.gateDeclared && !exists i: nat :: GateAt(task, i))
      && (state == Passed <==> GateReads(task, reader, true)) && (state == Failed <==> GateReads(task, reader, false))
      && state != Pending
  {
    hide Latest;
    LatestIs(task.artifacts, GateReport, GATE);
    if task.gateDeclared {
      assert (exists i: nat :: GateAt(task, i)) <==> exists i: nat :: IsLatest(task.artifacts, GateReport, GATE, i) by {
        forall i: nat ensures GateAt(task, i) <==> IsLatest(task.artifacts, GateReport, GATE, i) {
        }
      }
    }
    if i: nat :| GateAt(task, i) {
      assert Latest(task.artifacts, GateReport, GATE) == Some(task.artifacts[i]);
    }
  }

  /**
   Which state a verification is in: a failure is reported before anything that
   does not read, and that before anything missing.
   */
  lemma VerificationExact(task: Task, reader: Reader)
    ensures
      var state := VerificationOf(task, reader);
      var over := task.attempt.Some? && task.attempt.value.terminal && (task.declared != [] || task.gateDeclared);
      var fails := SomeReportFails(task, reader) || GateReads(task, reader, false);
      var gate := exists i: nat :: GateAt(task, i);
      var unreadable :=
        SomeReportUnreadable(task, reader) || (gate && !GateReads(task, reader, true) && !GateReads(task, reader, false));
      && (state == NotDeclared <==> task.declared == [] && !task.gateDeclared)
      && (state == Pending <==> !over && (task.declared != [] || task.gateDeclared))
      && (state == Failed <==> over && fails) && (state == Unavailable <==> over && !fails && unreadable)
      && (state == Missing <==>
            && over && !fails && !unreadable
            && (|ReportsAmong(task.artifacts)| < |task.declared| || (task.gateDeclared && !gate)))
  {
    ReportExact(task, reader);
    CountIsReports(task.artifacts);
    if task.attempt.Some? {
      GateExact(task, reader);
    }
    hide ReportFails, ReportUnreadable, SomeReportFails, SomeReportUnreadable, GateState, GateReads, ReportCount,
      ReportsAmong;
    NoGate(task);
  }

  lemma NoGate(task: Task)
    ensures !task.gateDeclared ==> !exists i: nat :: GateAt(task, i)
  {
  }

  // ----------------------------------------------------- commands and their reports

  /** The report is about this command. */
  predicate Reports(reader: Reader, a: Artifact, command: Id) {
    IsReport(a) && (match Read(reader, a.id) case Some(CommandReport(c, _)) => c == command case _ => false)
  }

  ghost predicate Reported(reader: Reader, artifacts: seq<Artifact>, command: Id) {
    exists a <- artifacts :: Reports(reader, a, command)
  }

  /** What a reader of `passed` expects: every declared command has a report with exit zero. */
  ghost predicate EveryCommandPassed(task: Task, reader: Reader) {
    forall command <- task.declared ::
      exists a <- task.artifacts :: Reports(reader, a, command) && ReportPasses(reader, a)
  }

  /** The report is the first of a declared command. */
  ghost predicate FirstOfItsCommand(reader: Reader, earlier: seq<Artifact>, a: Artifact, declared: seq<Id>) {
    exists command <- declared :: Reports(reader, a, command) && !Reported(reader, earlier, command)
  }

  /** The reports that count once repeated and undeclared ones are left out. */
  ghost function FirstReports(reader: Reader, artifacts: seq<Artifact>, declared: seq<Id>): nat {
    if artifacts == [] then 0
    else
      var init, last := artifacts[..|artifacts| - 1], artifacts[|artifacts| - 1];
      FirstReports(reader, init, declared) + if FirstOfItsCommand(reader, init, last, declared) then 1 else 0
  }

  ghost function Commands(declared: seq<Id>): set<Id> {
    set c | c in declared
  }

  ghost function ReportedOf(reader: Reader, artifacts: seq<Artifact>, declared: seq<Id>): set<Id> {
    set command | command in declared && Reported(reader, artifacts, command)
  }

  lemma ReportedGrows(reader: Reader, init: seq<Artifact>, last: Artifact, command: Id)
    ensures Reported(reader, init + [last], command) <==> Reported(reader, init, command) || Reports(reader, last, command)
  {
    hide Reports;
    assert forall a <- init :: a in init + [last];
    assert last in init + [last];
  }

  lemma OneCommand(reader: Reader, a: Artifact, c: Id, d: Id)
    requires Reports(reader, a, c) && Reports(reader, a, d)
    ensures c == d
  {
  }

  lemma {:induction false} FirstReportsCount(reader: Reader, artifacts: seq<Artifact>, declared: seq<Id>)
    ensures FirstReports(reader, artifacts, declared) == |ReportedOf(reader, artifacts, declared)|
    ensures FirstReports(reader, artifacts, declared) <= ReportCount(artifacts)
  {
    hide Reports, Reported;
    if artifacts == [] {
      assert ReportedOf(reader, artifacts, declared) == {} by { NothingReported(reader, declared); }
    } else {
      var init, last := artifacts[..|artifacts| - 1], artifacts[|artifacts| - 1];
      assert artifacts == init + [last];
      FirstReportsCount(reader, init, declared);
      forall command <- declared
        ensures Reported(reader, artifacts, command) <==> Reported(reader, init, command) || Reports(reader, last, command)
      {
        ReportedGrows(reader, init, last, command);
      }
      var before, after := ReportedOf(reader, init, declared), ReportedOf(reader, artifacts, declared);
      if FirstOfItsCommand(reader, init, last, declared) {
        var command :| command in declared && Reports(reader, last, command) && !Reported(reader, init, command);
        forall d | Reports(reader, last, d) ensures d == command {
          OneCommand(reader, last, d, command);
        }
        assert after == before + {command};
        assert IsReport(last) by { ReportIs(reader, last, command); }
      } else {
        assert after == before;
      }
    }
  }

  lemma NothingReported(reader: Reader, declared: seq<Id>)
    ensures forall command :: !Reported(reader, [], command)
  {
  }

  lemma ReportIs(reader: Reader, a: Artifact, command: Id)
    requires Reports(reader, a, command)
    ensures IsReport(a)
  {
  }

  lemma {:induction false} FewerCommands(declared: seq<Id>)
    ensures |Commands(declared)| <= |declared|
  {
    if declared != [] {
      var init, last := declared[..|declared| - 1], declared[|declared| - 1];
      assert declared == init + [last];
      FewerCommands(init);
      assert Commands(declared) == Commands(init) + {last};
    }
  }

  /**
   When passed means what it says: of a verification that passed, every declared
   command reported exit zero exactly when the reports number as many first
   reports of declared commands as there are such commands. The code counts
   repeated and undeclared reports as well.
   */
  lemma PassedMeansEvery(task: Task, reader: Reader)
    requires VerificationOf(task, reader) == Passed
    ensures EveryCommandPassed(task, reader) <==>
      FirstReports(reader, task.artifacts, task.declared) == |Commands(task.declared)|
  {
    PassedExact(task, reader);
    hide VerificationOf, FirstReports, Read;
    FirstReportsCount(reader, task.artifacts, task.declared);
    var all, named := Commands(task.declared), ReportedOf(reader, task.artifacts, task.declared);
    assert named <= all;
    if |named| == |all| {
      SameSize(named, all);
      forall command <- task.declared
        ensures exists a <- task.artifacts :: Reports(reader, a, command) && ReportPasses(reader, a)
      {
        assert command in named;
      }
    }
    if EveryCommandPassed(task, reader) {
      assert all == named;
    }
  }

  lemma SameSize(part: set<Id>, whole: set<Id>)
    requires part <= whole && |part| == |whole|
    ensures part == whole
  {
    assert |whole - part| == 0;
    assert whole == part + (whole - part);
  }

  /** With no report repeated and none of an undeclared command the count is enough, so passed means every command passed. */
  lemma OneReportEach(task: Task, reader: Reader)
    requires VerificationOf(task, reader) == Passed
    requires FirstReports(reader, task.artifacts, task.declared) == ReportCount(task.artifacts)
    ensures EveryCommandPassed(task, reader)
  {
    PassedExact(task, reader);
    PassedMeansEvery(task, reader);
    hide VerificationOf, FirstReports, EveryCommandPassed;
    FirstReportsCount(reader, task.artifacts, task.declared);
    FewerCommands(task.declared);
    var all, named := Commands(task.declared), ReportedOf(reader, task.artifacts, task.declared);
    assert named <= all;
    NoLarger(named, all);
  }

  lemma NoLarger(part: set<Id>, whole: set<Id>)
    requires part <= whole
    ensures |part| <= |whole|
  {
    assert |whole| == |part| + |whole - part| by { assert whole == part + (whole - part); }
  }

  ghost predicate NoneRepeated(reader: Reader, artifacts: seq<Artifact>) {
    forall i, j, c | 0 <= i < j < |artifacts| && Reports(reader, artifacts[i], c) :: !Reports(reader, artifacts[j], c)
  }

  ghost predicate NoneUndeclared(reader: Reader, artifacts: seq<Artifact>, declared: seq<Id>) {
    forall a <- artifacts, c | Reports(reader, a, c) :: c in declared
  }

  lemma CleanGrows(reader: Reader, init: seq<Artifact>, last: Artifact, declared: seq<Id>)
    requires IsReport(last) ==> ReportPasses(reader, last)
    ensures NoneRepeated(reader, init + [last]) && NoneUndeclared(reader, init + [last], declared) <==>
      && NoneRepeated(reader, init) && NoneUndeclared(reader, init, declared)
      && (IsReport(last) ==> FirstOfItsCommand(reader, init, last, declared))
  {
    var all := init + [last];
    assert forall i | 0 <= i < |init| :: all[i] == init[i];
    assert last in all && all[|init|] == last && forall a <- init :: a in all;
    if IsReport(last) {
      var c := Read(reader, last.id).value.command;
      assert Reports(reader, last, c);
      assert forall d :: Reports(reader, last, d) ==> d == c;
      assert Reported(reader, init, c) <==> exists i | 0 <= i < |init| :: Reports(reader, all[i], c);
    }
  }

  /** Among readable reports all are first ones of declared commands exactly when none is repeated or undeclared. */
  lemma {:induction false} FirstReportsClean(reader: Reader, artifacts: seq<Artifact>, declared: seq<Id>)
    requires forall a <- artifacts :: IsReport(a) ==> ReportPasses(reader, a)
    ensures FirstReports(reader, artifacts, declared) == ReportCount(artifacts)
      <==> NoneRepeated(reader, artifacts) && NoneUndeclared(reader, artifacts, declared)
  {
    hide Read;
    if artifacts != [] {
      var init, last := artifacts[..|artifacts| - 1], artifacts[|artifacts| - 1];
      assert artifacts == init + [last];
      FirstReportsClean(reader, init, declared);
      FirstReportsCount(reader, init, declared);
      CleanGrows(reader, init, last, declared);
      hide NoneRepeated, NoneUndeclared, Reports, Reported;
      assert FirstOfItsCommand(reader, init, last, declared) ==> IsReport(last) by {
        if c :| c in declared && Reports(reader, last, c) {
          ReportIs(reader, last, c);
        }
      }
    }
  }

  lemma {:induction false} DistinctCommands(declared: seq<Id>)
    requires forall i, j | 0 <= i < j < |declared| :: declared[i] != declared[j]
    ensures |Commands(declared)| == |declared|
  {
    if declared != [] {
      var init, last := declared[..|declared| - 1], declared[|declared| - 1];
      assert declared == init + [last];
      DistinctCommands(init);
      assert Commands(declared) == Commands(init) + {last};
    }
  }

  /** Where the count is met exactly, passed means every command exactly when no report is repeated or undeclared. */
  lemma PassedMeansClean(task: Task, reader: Reader)
    requires VerificationOf(task, reader) == Passed && ReportCount(task.artifacts) == |task.declared|
    requires forall i, j | 0 <= i < j < |task.declared| :: task.declared[i] != task.declared[j]
    ensures EveryCommandPassed(task, reader)
      <==> NoneRepeated(reader, task.artifacts) && NoneUndeclared(reader, task.artifacts, task.declared)
  {
    PassedExact(task, reader);
    PassedMeansEvery(task, reader);
    hide VerificationOf, FirstReports, EveryCommandPassed, NoneRepeated, NoneUndeclared, ReportPasses;
    DistinctCommands(task.declared);
    FirstReportsClean(reader, task.artifacts, task.declared);
  }

  lemma TwoReports(a: Artifact, b: Artifact)
    requires IsReport(a) && IsReport(b)
    ensures ReportCount([a, b]) == 2
  {
    assert [a][..0] == [];
    assert ReportCount([a]) == ReportCount([]) + 1;
    assert [a, b][..1] == [a];
  }

  /** It may mean less: two commands are declared, both reports are of the first, and the verification passed. */
  lemma RepeatedReportPasses() returns (task: Task, reader: Reader)
    ensures VerificationOf(task, reader) == Passed && !EveryCommandPassed(task, reader)
  {
    var a, b := Artifact(Id(1), VerificationReport, Id(7), true), Artifact(Id(2), VerificationReport, Id(8), true);
    reader := Some(map[Id(1) := CommandReport(Id(5), 0), Id(2) := CommandReport(Id(5), 0)]);
    task := Task(Id(3), false, Some(Attempt(Id(4), true, true, None, None)), [], [], [Id(5), Id(6)], false, [a, b]);
    TwoReports(a, b);
    assert Id(6) in task.declared && !Reports(reader, a, Id(6)) && !Reports(reader, b, Id(6));
    PassedExact(task, reader);
  }
}
