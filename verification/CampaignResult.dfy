/** The result document of a campaign: its rows, read from the recorded artifacts, and the acceptance fact they carry. */
module CampaignResult {
  import opened Basics
  import opened ResultRecords
  import opened Acceptance

  // --------------------------------------------------------------- reading one task

  /** The commit an output records; `None` when the output leaves no entry at all. */
  function CommitOf(task: Task, name: Id, reader: Reader): Option<Commit>
    requires task.attempt.Some?
  {
    match Latest(task.artifacts, Output, name)
    case Some(record) =>
      (match Read(reader, record.id)
       case Some(CommitRecord(commit, false)) => Some(Commit(task.name, name, Some(commit)))
       case _ => Some(Commit(task.name, name, None)))
    case None => if task.attempt.value.succeeded then Some(Commit(task.name, name, None)) else None
  }

  function CommitsOf(task: Task, names: seq<Id>, reader: Reader): seq<Commit>
    requires task.attempt.Some?
  {
    if names == [] then []
    else
      var commit := CommitOf(task, names[0], reader);
      (if commit.Some? then [commit.value] else []) + CommitsOf(task, names[1..], reader)
  }

  function RowOf(task: Task, reader: Reader): Row {
    match task.attempt
    case None => Row(task.name, false, None, None, [], [], VerificationOf(task, reader))
    case Some(attempt) =>
      Row(task.name, attempt.succeeded, attempt.verdict, attempt.gate,
          CommitsOf(task, task.commitOutputs, reader), [], VerificationOf(task, reader))
  }

  // ------------------------------------------------------------- the result document

  function Kept(tasks: seq<Task>): seq<Task> {
    if tasks == [] then []
    else Kept(tasks[..|tasks| - 1]) + if tasks[|tasks| - 1].sink then [] else [tasks[|tasks| - 1]]
  }

  function BareRows(tasks: seq<Task>, reader: Reader): (rows: seq<Row>)
    ensures |rows| == |tasks|
    ensures forall i | 0 <= i < |tasks| :: rows[i] == RowOf(tasks[i], reader)
  {
    if tasks == [] then []
    else BareRows(tasks[..|tasks| - 1], reader) + [RowOf(tasks[|tasks| - 1], reader)]
  }

  function Reviewing(rows: seq<Row>, byName: map<Id, nat>, row: Row, task: Task): Row
    requires Indexed(rows, byName)
  {
    if row.verdict.None? then row else row.(reviewed := ReviewedBy(rows, byName, task.inputs))
  }

  /** The document's rows: the bare rows of all tasks but the sink, each review linked to what it consumed. */
  ghost predicate IsDocument(tasks: seq<Task>, reader: Reader, rows: seq<Row>) {
    var kept := Kept(tasks);
    var bare := BareRows(kept, reader);
    && |rows| == |kept| && Indexed(bare, ByName(bare))
    && forall i | 0 <= i < |kept| :: rows[i] == Reviewing(bare, ByName(bare), bare[i], kept[i])
  }

  lemma {:induction false} SameNames(rows: seq<Row>, rows': seq<Row>)
    requires |rows| == |rows'| && forall i | 0 <= i < |rows| :: rows[i].task == rows'[i].task
    ensures ByName(rows) == ByName(rows')
  {
    if rows != [] {
      SameNames(rows[..|rows| - 1], rows'[..|rows| - 1]);
    }
  }

  lemma BareRowsOwn(tasks: seq<Task>, reader: Reader)
    ensures OwnNames(BareRows(tasks, reader))
  {
    hide RowOf;
    forall i | 0 <= i < |tasks|
      ensures forall k <- RowOf(tasks[i], reader).commits :: k.task == RowOf(tasks[i], reader).task
    {
      RowOwns(tasks[i], reader);
    }
  }

  lemma RowOwns(task: Task, reader: Reader)
    ensures forall k <- RowOf(task, reader).commits :: k.task == RowOf(task, reader).task
  {
    hide VerificationOf;
    if task.attempt.Some? {
      CommitsAre(task, task.commitOutputs, reader);
    }
  }

  lemma DocumentIsLinked(tasks: seq<Task>, reader: Reader, rows: seq<Row>)
    requires IsDocument(tasks, reader, rows)
    ensures Linked(rows)
  {
    var kept := Kept(tasks);
    var bare := BareRows(kept, reader);
    BareRowsOwn(kept, reader);
    SameNames(bare, rows);
    forall i | 0 <= i < |rows| ensures Recorded(rows, ByName(rows), rows[i].reviewed) {
      hide ByName, ReviewedBy, RowOf;
      ReviewedAreRecorded(bare, kept[i].inputs);
    }
  }

  // ------------------------------------------------- the fact over the recorded artifacts

  /** `kept` are the tasks at these positions, in their order, and these are all but the sink's. */
  ghost predicate AreKept(tasks: seq<Task>, kept: seq<Task>, at: seq<nat>) {
    && |at| == |kept| && (forall i, j | 0 <= i < j < |at| :: at[i] < at[j])
    && (forall i | 0 <= i < |at| :: at[i] < |tasks| && kept[i] == tasks[at[i]] && !kept[i].sink)
    && (forall k: nat | k < |tasks| && !tasks[k].sink :: k in at)
  }

  lemma KeptGrows(init: seq<Task>, task: Task, kept: seq<Task>, at: seq<nat>)
    requires AreKept(init, kept, at)
    ensures task.sink ==> AreKept(init + [task], kept, at)
    ensures !task.sink ==> AreKept(init + [task], kept + [task], at + [|init|])
  {
    assert forall k: nat | k < |init| :: (init + [task])[k] == init[k];
    assert |init| in at + [|init|] && forall k <- at :: k in at + [|init|];
  }

  /** The document keeps, in manifest order, every task but the sink. */
  lemma {:induction false} KeptExact(tasks: seq<Task>) returns (at: seq<nat>)
    ensures AreKept(tasks, Kept(tasks), at)
  {
    at := [];
    if tasks != [] {
      hide AreKept;
      var init, task := tasks[..|tasks| - 1], tasks[|tasks| - 1];
      assert tasks == init + [task];
      at := KeptExact(init);
      KeptGrows(init, task, Kept(init), at);
      if !task.sink {
        at := at + [|init|];
      }
    }
  }

  /** The task's latest selected record of this declared output reads `c` as no failed attempt's commit. */
  ghost predicate RecordedAs(task: Task, reader: Reader, name: Id, c: Id) {
    && task.attempt.Some? && reader.Some? && name in task.commitOutputs
    && exists i: nat :: IsLatest(task.artifacts, Output, name, i)
         && task.artifacts[i].id in reader.value && reader.value[task.artifacts[i].id] == CommitRecord(c, false)
  }

  lemma CommitExact(task: Task, name: Id, reader: Reader, c: Id)
    requires task.attempt.Some? && name in task.commitOutputs
    ensures CommitOf(task, name, reader) == Some(Commit(task.name, name, Some(c))) <==> RecordedAs(task, reader, name, c)
  {
    LatestIs(task.artifacts, Output, name);
    hide Latest, IsLatest;
  }

  /** An output leaves an entry exactly when a record of it was retained or the attempt succeeded. */
  lemma EntryExact(task: Task, name: Id, reader: Reader)
    requires task.attempt.Some?
    ensures CommitOf(task, name, reader).Some? <==>
      task.attempt.value.succeeded || exists i: nat :: IsLatest(task.artifacts, Output, name, i)
    ensures CommitOf(task, name, reader).Some? ==>
      CommitOf(task, name, reader).value.task == task.name && CommitOf(task, name, reader).value.name == name
  {
    LatestIs(task.artifacts, Output, name);
    hide Latest, IsLatest;
  }

  lemma {:induction false} CommitsAre(task: Task, names: seq<Id>, reader: Reader)
    requires task.attempt.Some?
    ensures forall k :: k in CommitsOf(task, names, reader) <==> exists n <- names :: CommitOf(task, n, reader) == Some(k)
  {
    if names != [] {
      hide CommitOf;
      CommitsAre(task, names[1..], reader);
      assert forall n <- names :: n == names[0] || n in names[1..];
    }
  }

  lemma RowRecords(task: Task, reader: Reader, name: Id, c: Id)
    ensures (exists k <- RowOf(task, reader).commits :: k.name == name && k.commit == Some(c))
      <==> RecordedAs(task, reader, name, c)
    ensures forall k <- RowOf(task, reader).commits :: k.task == task.name
  {
    if task.attempt.Some? {
      CommitsAre(task, task.commitOutputs, reader);
      forall n <- task.commitOutputs
        ensures CommitOf(task, n, reader).Some? ==>
          CommitOf(task, n, reader).value.task == task.name && CommitOf(task, n, reader).value.name == n
      {
        EntryExact(task, n, reader);
      }
      hide CommitOf, CommitsOf, VerificationOf, RecordedAs;
      if name in task.commitOutputs {
        CommitExact(task, name, reader, c);
      } else {
        assert !RecordedAs(task, reader, name, c) by { Undeclared(task, reader, name, c); }
      }
    }
  }

  lemma Undeclared(task: Task, reader: Reader, name: Id, c: Id)
    requires name !in task.commitOutputs
    ensures !RecordedAs(task, reader, name, c)
  {
  }

  /** The last kept task of this name. */
  ghost predicate IsTaskOf(kept: seq<Task>, name: Id, p: nat) {
    p < |kept| && kept[p].name == name && forall q | p < q < |kept| :: kept[q].name != name
  }

  /** The input consumes, by producer and name, an output recorded as `c` by the producer at `p`. */
  ghost predicate ConsumesFrom(kept: seq<Task>, reader: Reader, input: Input, c: Id, p: nat) {
    IsTaskOf(kept, input.producer, p) && exists name <- input.names :: RecordedAs(kept[p], reader, name, c)
  }

  ghost predicate VerdictIs(task: Task, verdict: Verdict) {
    task.attempt.Some? && task.attempt.value.verdict == Some(verdict)
  }

  /** The task asked for changes and consumes an output recorded as `c`. */
  ghost predicate AsksOn(kept: seq<Task>, reader: Reader, t: Task, c: Id) {
    VerdictIs(t, ChangesRequested) && exists input <- t.inputs, p: nat :: ConsumesFrom(kept, reader, input, c, p)
  }

  ghost predicate ChangesAsked(kept: seq<Task>, reader: Reader, c: Id) {
    exists t <- kept :: AsksOn(kept, reader, t, c)
  }

  /** The task succeeded, its verification passed and its review gate accepted the head `c`. */
  ghost predicate Seals(task: Task, reader: Reader, c: Id) {
    && task.attempt.Some? && task.attempt.value.succeeded && task.attempt.value.gate == Some(Gate(true, Some(c)))
    && VerificationOf(task, reader) == Passed
  }

  ghost predicate HeadAccepted(task: Task, reader: Reader, c: Id) {
    Seals(task, reader, c) && exists name <- task.commitOutputs :: RecordedAs(task, reader, name, c)
  }

  lemma RowFacts(tasks: seq<Task>, reader: Reader, rows: seq<Row>, i: nat)
    requires IsDocument(tasks, reader, rows) && i < |rows|
    ensures
      var task, bare := Kept(tasks)[i], RowOf(Kept(tasks)[i], reader);
      && rows[i].task == task.name && rows[i].commits == bare.commits
      && rows[i].verdict == (if task.attempt.Some? then task.attempt.value.verdict else None)
      && (rows[i].succeeded <==> task.attempt.Some? && task.attempt.value.succeeded)
      && forall c :: Sealed(rows[i], Some(c)) <==> Seals(task, reader, c)
  {
    hide VerificationOf, CommitsOf, ReviewedBy, ByName, Kept;
  }

  lemma {:induction false} SameReviewed(rows: seq<Row>, rows': seq<Row>, byName: map<Id, nat>, inputs: seq<Input>)
    requires |rows| == |rows'| && Indexed(rows, byName)
    requires forall i | 0 <= i < |rows| :: rows[i].commits == rows'[i].commits
    ensures ReviewedBy(rows, byName, inputs) == ReviewedBy(rows', byName, inputs)
  {
    hide Consumed;
    if inputs != [] {
      SameReviewed(rows, rows', byName, inputs[1..]);
    }
  }

  lemma SameCommits(tasks: seq<Task>, reader: Reader, rows: seq<Row>)
    requires IsDocument(tasks, reader, rows)
    ensures
      var bare := BareRows(Kept(tasks), reader);
      && |rows| == |bare| && Indexed(rows, ByName(rows)) && ByName(rows) == ByName(bare)
      && (forall i | 0 <= i < |rows| :: rows[i].commits == bare[i].commits && rows[i].task == bare[i].task)
      && (forall i | 0 <= i < |rows| ::
            rows[i].reviewed ==
              if rows[i].verdict.Some? then ReviewedBy(bare, ByName(bare), Kept(tasks)[i].inputs) else [])
  {
    hide Kept, ByName, ReviewedBy, CommitsOf, VerificationOf;
    SameNames(BareRows(Kept(tasks), reader), rows);
  }

  /** Every review row of the document is linked to what its inputs consume from the document's own rows. */
  lemma ReviewedInDocument(tasks: seq<Task>, reader: Reader, rows: seq<Row>)
    requires IsDocument(tasks, reader, rows)
    ensures |rows| == |Kept(tasks)| && Indexed(rows, ByName(rows)) && OwnNames(rows)
    ensures forall i | 0 <= i < |rows| ::
      rows[i].reviewed == if rows[i].verdict.Some? then ReviewedBy(rows, ByName(rows), Kept(tasks)[i].inputs) else []
  {
    hide IsDocument, ByName, ReviewedBy, Kept, RowOf;
    var bare := BareRows(Kept(tasks), reader);
    SameCommits(tasks, reader, rows);
    BareRowsOwn(Kept(tasks), reader);
    forall i | 0 <= i < |rows|
      ensures rows[i].reviewed == if rows[i].verdict.Some? then ReviewedBy(rows, ByName(rows), Kept(tasks)[i].inputs) else []
    {
      SameReviewed(bare, rows, ByName(bare), Kept(tasks)[i].inputs);
    }
    forall r <- rows ensures forall k <- r.commits :: k.task == r.task {
      var i :| 0 <= i < |rows| && rows[i] == r;
      assert bare[i] in bare;
    }
  }

  lemma RowOfIff(tasks: seq<Task>, reader: Reader, rows: seq<Row>, name: Id, p: nat)
    requires IsDocument(tasks, reader, rows)
    ensures IsRowOf(rows, name, p) <==> IsTaskOf(Kept(tasks), name, p)
  {
    hide IsDocument;
    assert |rows| == |Kept(tasks)| by { SameLength(tasks, reader, rows); }
    forall i | 0 <= i < |rows| ensures rows[i].task == Kept(tasks)[i].name {
      RowFacts(tasks, reader, rows, i);
    }
  }

  lemma SameLength(tasks: seq<Task>, reader: Reader, rows: seq<Row>)
    requires IsDocument(tasks, reader, rows)
    ensures |rows| == |Kept(tasks)|
  {
  }

  lemma ConsumesIff(tasks: seq<Task>, reader: Reader, rows: seq<Row>, input: Input, c: Id, p: nat)
    requires IsDocument(tasks, reader, rows)
    ensures RowSupplies(rows, input, c, p) <==> ConsumesFrom(Kept(tasks), reader, input, c, p)
  {
    hide IsDocument, RecordedAs;
    RowOfIff(tasks, reader, rows, input.producer, p);
    if IsRowOf(rows, input.producer, p) {
      RowFacts(tasks, reader, rows, p);
      forall name ensures (exists k <- rows[p].commits :: k.name == name && k.commit == Some(c))
          <==> RecordedAs(Kept(tasks)[p], reader, name, c)
      {
        RowRecords(Kept(tasks)[p], reader, name, c);
      }
    }
  }

  lemma ReviewedSupplies(rows: seq<Row>, inputs: seq<Input>, c: Id)
    requires Indexed(rows, ByName(rows))
    ensures (exists k <- ReviewedBy(rows, ByName(rows), inputs) :: k.commit == Some(c))
      <==> exists input <- inputs, p: nat :: RowSupplies(rows, input, c, p)
  {
    ReviewedExact(rows, inputs);
    hide ReviewedBy, ByName, IsRowOf;
    if k :| k in ReviewedBy(rows, ByName(rows), inputs) && k.commit == Some(c) {
      var input :| input in inputs && Consumes(rows, input, k);
      var p: nat :| IsRowOf(rows, input.producer, p) && k in rows[p].commits && k.name in input.names;
      assert RowSupplies(rows, input, c, p);
    }
    if input, p: nat :| input in inputs && RowSupplies(rows, input, c, p) {
      var k :| k in rows[p].commits && k.name in input.names && k.commit == Some(c);
      assert Consumes(rows, input, k);
    }
  }

  /** A row of the document asks for changes on `c` exactly when its task does and consumes an output recorded as `c`. */
  lemma RowRejects(tasks: seq<Task>, reader: Reader, rows: seq<Row>, i: nat, c: Id)
    requires IsDocument(tasks, reader, rows) && i < |rows| && |rows| == |Kept(tasks)|
    ensures (rows[i].verdict == Some(ChangesRequested) && exists k <- rows[i].reviewed :: k.commit == Some(c))
      <==> AsksOn(Kept(tasks), reader, Kept(tasks)[i], c)
  {
    hide IsDocument, ConsumesFrom, RowSupplies, ReviewedBy, ByName, OwnNames, Indexed, Kept, RowOf, Seals, Sealed;
    RowFacts(tasks, reader, rows, i);
    ReviewedInDocument(tasks, reader, rows);
    var inputs := Kept(tasks)[i].inputs;
    ReviewedSupplies(rows, inputs, c);
    forall input: Input, p: nat
      ensures RowSupplies(rows, input, c, p) <==> ConsumesFrom(Kept(tasks), reader, input, c, p)
    {
      ConsumesIff(tasks, reader, rows, input, c, p);
    }
  }

  /** Rejection over the recorded artifacts: which commits the document passes over. */
  lemma RejectedExact(tasks: seq<Task>, reader: Reader, rows: seq<Row>, c: Id)
    requires IsDocument(tasks, reader, rows)
    ensures Rejected(rows, c) <==> ChangesAsked(Kept(tasks), reader, c)
  {
    SameLength(tasks, reader, rows);
    hide IsDocument, AsksOn, Kept;
    forall i | 0 <= i < |rows|
      ensures (rows[i].verdict == Some(ChangesRequested) && exists k <- rows[i].reviewed :: k.commit == Some(c))
        <==> AsksOn(Kept(tasks), reader, Kept(tasks)[i], c)
    {
      RowRejects(tasks, reader, rows, i, c);
    }
  }

  lemma HeadIff(tasks: seq<Task>, reader: Reader, rows: seq<Row>, i: nat, c: Id)
    requires IsDocument(tasks, reader, rows) && i < |rows| && |rows| == |Kept(tasks)|
    ensures HeadAccepted(Kept(tasks)[i], reader, c) <==>
      Sealed(rows[i], Some(c)) && exists k <- rows[i].commits :: k.commit == Some(c)
  {
    hide IsDocument, Kept, RecordedAs, Seals, Sealed;
    var task := Kept(tasks)[i];
    RowFacts(tasks, reader, rows, i);
    if k :| k in rows[i].commits && k.commit == Some(c) {
      RowRecords(task, reader, k.name, c);
      if k.name !in task.commitOutputs {
        Undeclared(task, reader, k.name, c);
      }
    }
    if name :| name in task.commitOutputs && RecordedAs(task, reader, name, c) {
      RowRecords(task, reader, name, c);
    }
  }

  /**
   The fact over the recorded artifacts: something is accepted exactly when some
   task that succeeded and is verified recorded a commit its review gate accepted
   as its head, and no task that asked for changes consumed an output recorded as
   that commit. Without a reader for the artifacts nothing ever is.
   */
  lemma DocumentAcceptance(tasks: seq<Task>, reader: Reader, rows: seq<Row>)
    requires IsDocument(tasks, reader, rows)
    ensures Linked(rows)
    ensures AcceptanceOf(rows).Some? <==>
      exists t <- Kept(tasks), c: Id :: HeadAccepted(t, reader, c) && !ChangesAsked(Kept(tasks), reader, c)
    ensures reader.None? ==> AcceptanceOf(rows).None?
  {
    assert reader.None? ==> forall t: Task, c: Id :: !HeadAccepted(t, reader, c);
    SameLength(tasks, reader, rows);
    DocumentIsLinked(tasks, reader, rows);
    AcceptanceExact(rows);
    hide IsDocument, Kept, HeadAccepted, ChangesAsked, Rejected, Linked, AcceptanceOf, Sealed;
    var kept := Kept(tasks);
    forall c: Id ensures Rejected(rows, c) <==> ChangesAsked(kept, reader, c) {
      RejectedExact(tasks, reader, rows, c);
    }
    forall i, c: Id | 0 <= i < |rows| ensures Binds(rows[i], c) <==> HeadAccepted(kept[i], reader, c) {
      HeadIff(tasks, reader, rows, i, c);
      BindsIs(rows[i], c);
    }
    hide Binds;
    forall c: Id ensures Bound(rows, c) <==> exists t <- kept :: HeadAccepted(t, reader, c) {
    }
  }

  lemma BindsIs(row: Row, c: Id)
    ensures Binds(row, c) <==> Sealed(row, Some(c)) && exists k <- row.commits :: k.commit == Some(c)
  {
  }

  /** A task that accepted and succeeded consumes `c` from a producer at `p` whose own gate accepted it as its head. */
  ghost predicate InputOffers(kept: seq<Task>, reader: Reader, t: Task, input: Input, c: Id, p: nat) {
    && VerdictIs(t, Accept) && t.attempt.value.succeeded
    && ConsumesFrom(kept, reader, input, c, p) && Seals(kept[p], reader, c)
  }

  /** Changes were asked for on everything the task offers through this input. */
  ghost predicate InputPassedOver(kept: seq<Task>, reader: Reader, t: Task, input: Input) {
    forall c: Id, p: nat | InputOffers(kept, reader, t, input, c, p) :: ChangesAsked(kept, reader, c)
  }

  /** Changes were asked for on everything the task offers. */
  ghost predicate PassedOver(kept: seq<Task>, reader: Reader, t: Task) {
    && (forall c: Id | HeadAccepted(t, reader, c) :: ChangesAsked(kept, reader, c))
    && (forall input <- t.inputs :: InputPassedOver(kept, reader, t, input))
  }

  lemma InputOffersIff(tasks: seq<Task>, reader: Reader, rows: seq<Row>, i: nat, input: Input, c: Id)
    requires IsDocument(tasks, reader, rows) && i < |rows| && |rows| == |Kept(tasks)|
    requires Indexed(rows, ByName(rows)) && OwnNames(rows)
    requires rows[i].verdict == Some(Accept) && rows[i].succeeded
    ensures Accepted(c, rows[i].task, input.producer) in InputCandidates(rows, rows[i], input) <==>
      exists p: nat :: InputOffers(Kept(tasks), reader, Kept(tasks)[i], input, c, p)
    ensures forall x <- InputCandidates(rows, rows[i], input) :: x == Accepted(x.commit, rows[i].task, input.producer)
  {
    hide IsDocument, Kept, ConsumesFrom, RowSupplies, Seals, Sealed, InputCandidates, ByName, OwnNames;
    RowFacts(tasks, reader, rows, i);
    InputCandidatesAre(rows, rows[i], input);
    forall p: nat ensures RowOffers(rows, input, c, p) <==> InputOffers(Kept(tasks), reader, Kept(tasks)[i], input, c, p) {
      ConsumesIff(tasks, reader, rows, input, c, p);
      SuppliesWithin(rows, input, c, p);
      if p < |rows| {
        RowFacts(tasks, reader, rows, p);
      }
    }
    hide RowOffers, InputOffers;
  }

  lemma SuppliesWithin(rows: seq<Row>, input: Input, c: Id, p: nat)
    ensures RowSupplies(rows, input, c, p) ==> p < |rows|
  {
  }

  lemma InputOver(tasks: seq<Task>, reader: Reader, rows: seq<Row>, i: nat, input: Input)
    requires IsDocument(tasks, reader, rows) && i < |rows| && |rows| == |Kept(tasks)|
    requires Indexed(rows, ByName(rows)) && OwnNames(rows)
    requires rows[i].verdict == Some(Accept) && rows[i].succeeded ==>
      AllRejected(rows, InputCandidates(rows, rows[i], input))
    ensures InputPassedOver(Kept(tasks), reader, Kept(tasks)[i], input)
  {
    hide IsDocument, Kept, ConsumesFrom, Seals, Sealed, InputCandidates, ByName, OwnNames, Rejected, ChangesAsked;
    RowFacts(tasks, reader, rows, i);
    forall c: Id, p: nat | InputOffers(Kept(tasks), reader, Kept(tasks)[i], input, c, p)
      ensures ChangesAsked(Kept(tasks), reader, c)
    {
      InputOffersIff(tasks, reader, rows, i, input, c);
      RejectedExact(tasks, reader, rows, c);
    }
  }

  lemma RowPassedOver(tasks: seq<Task>, reader: Reader, rows: seq<Row>, j: nat)
    requires IsDocument(tasks, reader, rows) && j < |rows| && |rows| == |Kept(tasks)|
    requires Indexed(rows, ByName(rows)) && OwnNames(rows) && Linked(rows)
    requires LinkedTo(rows, rows[j], Kept(tasks)[j].inputs)
    requires forall c <- RowCandidates(rows, rows[j]) :: Rejected(rows, c.commit)
    ensures PassedOver(Kept(tasks), reader, Kept(tasks)[j])
  {
    hide IsDocument, Kept, Rejected, ByName, OwnNames, ChangesAsked, HeadAccepted, InputPassedOver, Sealed, LinkedTo,
      OwnCandidates, InputCandidates;
    var kept := Kept(tasks);
    LastStandingIs(rows, RowCandidates(rows, rows[j]));
    var x := LastOfRow(rows, rows[j], kept[j].inputs);
    forall c: Id | HeadAccepted(kept[j], reader, c) ensures ChangesAsked(kept, reader, c) {
      HeadIff(tasks, reader, rows, j, c);
      OwnCandidatesAre(rows[j], rows[j].commits);
      assert Accepted(c, rows[j].task, rows[j].task) in OwnCandidates(rows[j], rows[j].commits);
      RejectedExact(tasks, reader, rows, c);
    }
    forall input <- kept[j].inputs ensures InputPassedOver(kept, reader, kept[j], input) {
      var y :| 0 <= y < |kept[j].inputs| && kept[j].inputs[y] == input;
      InputOver(tasks, reader, rows, j, input);
    }
  }

  /**
   Which commit is reported: that of the last task in manifest order that offers
   one no changes were asked for on; of that task, what its last such input
   brings, and what its own gate accepted only when none brings any.
   */
  lemma ReportedExact(tasks: seq<Task>, reader: Reader, rows: seq<Row>) returns (i: nat, x: nat)
    requires IsDocument(tasks, reader, rows) && Linked(rows) && AcceptanceOf(rows).Some?
    ensures
      var kept, a := Kept(tasks), AcceptanceOf(rows).value;
      && i < |kept| && a.review == kept[i].name && !ChangesAsked(kept, reader, a.commit)
      && x <= |kept[i].inputs|
      && (x == |kept[i].inputs| ==> a.verified == kept[i].name && HeadAccepted(kept[i], reader, a.commit))
      && (x < |kept[i].inputs| ==>
            && a.verified == kept[i].inputs[x].producer
            && exists p: nat :: InputOffers(kept, reader, kept[i], kept[i].inputs[x], a.commit, p))
      && (forall y | 0 <= y < |kept[i].inputs| && (x == |kept[i].inputs| || x < y) ::
            InputPassedOver(kept, reader, kept[i], kept[i].inputs[y]))
      && forall j | i < j < |kept| :: PassedOver(kept, reader, kept[j])
  {
    hide IsDocument, Kept, Rejected, ByName, OwnNames, ChangesAsked, HeadAccepted, InputPassedOver, InputOffers, Sealed,
      LinkedTo, OwnCandidates, InputCandidates, RowCandidates, PassedOver, Candidates, Recorded;
    var kept, a := Kept(tasks), AcceptanceOf(rows).value;
    SameLength(tasks, reader, rows);
    DocumentLinks(tasks, reader, rows);
    LastInManifestOrder(rows, |rows|);
    i :| 0 <= i < |rows| && AcceptanceOf(rows) == LastStanding(rows, RowCandidates(rows, rows[i]))
      && forall j | i < j < |rows| :: forall c <- RowCandidates(rows, rows[j]) :: Rejected(rows, c.commit);
    RowFacts(tasks, reader, rows, i);
    LastStandingIs(rows, RowCandidates(rows, rows[i]));
    RejectedExact(tasks, reader, rows, a.commit);
    x := LastOfRow(rows, rows[i], kept[i].inputs);
    if x == |kept[i].inputs| {
      OwnCandidatesAre(rows[i], rows[i].commits);
      HeadIff(tasks, reader, rows, i, a.commit);
    } else {
      InputOffersIff(tasks, reader, rows, i, kept[i].inputs[x], a.commit);
    }
    forall y | 0 <= y < |kept[i].inputs| && (x == |kept[i].inputs| || x < y)
      ensures InputPassedOver(kept, reader, kept[i], kept[i].inputs[y])
    {
      InputOver(tasks, reader, rows, i, kept[i].inputs[y]);
    }
    forall j | i < j < |kept| ensures PassedOver(kept, reader, kept[j]) {
      RowPassedOver(tasks, reader, rows, j);
    }
  }

  lemma DocumentLinks(tasks: seq<Task>, reader: Reader, rows: seq<Row>)
    requires IsDocument(tasks, reader, rows) && |rows| == |Kept(tasks)|
    ensures Indexed(rows, ByName(rows)) && OwnNames(rows)
    ensures forall i | 0 <= i < |rows| :: LinkedTo(rows, rows[i], Kept(tasks)[i].inputs)
  {
    hide IsDocument, ByName, ReviewedBy, Kept, OwnNames;
    ReviewedInDocument(tasks, reader, rows);
  }

  // ---------------------------------------------------------------- how it is built

  lemma CommitsAppend(task: Task, names: seq<Id>, i: nat, reader: Reader)
    requires task.attempt.Some? && i < |names|
    ensures
      var commit := CommitOf(task, names[i], reader);
      CommitsOf(task, names[i..], reader)
        == (if commit.Some? then [commit.value] else []) + CommitsOf(task, names[i + 1..], reader)
  {
    hide CommitOf;
    assert names[i..][1..] == names[i + 1..];
  }

  method ReadCommits(task: Task, reader: Reader) returns (commits: seq<Commit>)
    requires task.attempt.Some?
    ensures commits == CommitsOf(task, task.commitOutputs, reader)
  {
    hide CommitOf, CommitsOf;
    commits := [];
    assert task.commitOutputs[0..] == task.commitOutputs;
    for i := 0 to |task.commitOutputs|
      invariant commits + CommitsOf(task, task.commitOutputs[i..], reader) == CommitsOf(task, task.commitOutputs, reader)
    {
      CommitsAppend(task, task.commitOutputs, i, reader);
      var commit := CommitOf(task, task.commitOutputs[i], reader);
      if commit.None? {
        assert [] + CommitsOf(task, task.commitOutputs[i + 1..], reader) == CommitsOf(task, task.commitOutputs[i + 1..], reader);
        continue;
      }
      commits := commits + [commit.value];
    }
    NoCommits(task, reader);
    assert task.commitOutputs[|task.commitOutputs|..] == [];
  }

  lemma NoCommits(task: Task, reader: Reader)
    requires task.attempt.Some?
    ensures CommitsOf(task, [], reader) == []
  {
  }

  method ReadTask(task: Task, reader: Reader) returns (row: Row)
    ensures row == RowOf(task, reader)
  {
    hide VerificationOf, CommitsOf;
    var verification := Verification(task, reader);
    if task.attempt.None? {
      return Row(task.name, false, None, None, [], [], verification);
    }
    var attempt := task.attempt.value;
    var commits := ReadCommits(task, reader);
    row := Row(task.name, attempt.succeeded, attempt.verdict, attempt.gate, commits, [], verification);
  }

  lemma {:induction false} AppendRow(kept: seq<Task>, task: Task, reader: Reader, rows: seq<Row>)
    requires rows == BareRows(kept, reader)
    ensures BareRows(kept + [task], reader) == rows + [RowOf(task, reader)]
    ensures ByName(rows + [RowOf(task, reader)]) == ByName(rows)[task.name := |kept|]
  {
    hide VerificationOf, CommitsOf;
    assert (kept + [task])[..|kept|] == kept;
    assert (rows + [RowOf(task, reader)])[..|rows|] == rows;
  }

  method BuildRows(tasks: seq<Task>, reader: Reader) returns (kept: seq<Task>, rows: seq<Row>, byName: map<Id, nat>)
    ensures kept == Kept(tasks) && rows == BareRows(kept, reader) && byName == ByName(rows)
  {
    hide RowOf, BareRows, ByName;
    kept, rows, byName := [], [], map[];
    assert rows == BareRows(kept, reader) && byName == ByName(rows) by { NoRows(reader); }
    for i := 0 to |tasks|
      invariant kept == Kept(tasks[..i]) && rows == BareRows(kept, reader) && byName == ByName(rows)
    {
      assert tasks[..i + 1][..i] == tasks[..i];
      if tasks[i].sink {
        continue;
      }
      var row := ReadTask(tasks[i], reader);
      byName := byName[tasks[i].name := |kept|];
      AppendRow(kept, tasks[i], reader, rows);
      kept, rows := kept + [tasks[i]], rows + [row];
    }
    assert tasks[..|tasks|] == tasks;
  }

  lemma NoRows(reader: Reader)
    ensures BareRows([], reader) == [] && ByName([]) == map[]
  {
  }

  /** Reads the recorded facts of a run into its rows and decides the acceptance fact. */
  method BuildCampaignResult(tasks: seq<Task>, reader: Reader) returns (rows: seq<Row>, accepted: Option<Accepted>)
    ensures IsDocument(tasks, reader, rows)
    ensures accepted.Some? <==>
      exists t <- Kept(tasks), c: Id :: HeadAccepted(t, reader, c) && !ChangesAsked(Kept(tasks), reader, c)
    ensures Linked(rows) && accepted == AcceptanceOf(rows)
  {
    hide Linked, AcceptanceOf, HeadAccepted, ChangesAsked, RowOf, Kept, BareRows, ByName, ReviewedBy;
    var kept, bare, byName := BuildRows(tasks, reader);
    ByNameIs(bare);
    rows := bare;
    for i := 0 to |kept|
      invariant |rows| == |bare|
      invariant forall j | 0 <= j < i :: rows[j] == Reviewing(bare, byName, bare[j], kept[j])
      invariant forall j | i <= j < |rows| :: rows[j] == bare[j]
    {
      rows := rows[i := Reviewing(bare, byName, bare[i], kept[i])];
    }
    DocumentAcceptance(tasks, reader, rows);
    accepted := CampaignAcceptance(rows);
  }
}
